/** Reply formatting of the support application: `format_response_text` in
    Functions.py, whose copy `_format_response_text` in main.py is the same
    code and is modelled by the same members. */
module Formatter {
  import opened Text

  // ---------------------------------------------------------------------------
  // The formatter
  // ---------------------------------------------------------------------------

  /** The two characters backslash and `n`, as a model's reply may contain. */
  const EscapedNewline: string := "\\n"

  /** `text.replace("\\n", "\n")` */
  function Unescape(text: string): string {
    Replace(text, EscapedNewline, "\n")
  }

  /** `text.replace("\n", "\\n")`, the inverse direction. */
  function Escape(text: string): string {
    Replace(text, "\n", EscapedNewline)
  }

  /** The three kinds of line the per-line pass tells apart. */
  datatype LineKind = Numbered | Bullet | Plain

  function Min(a: int, b: int): int { if a < b then a else b }

  /** `line.strip() and line.strip()[0].isdigit() and ")" in line[:5]`, then
      `line.strip().startswith("-")`, else a plain line. */
  function Classify(line: string): LineKind {
    var st := Strip(line);
    if st != [] && IsDigit(st[0]) && Contains(line[..Min(5, |line|)], ")") then Numbered
    else if "-" <= st then Bullet
    else Plain
  }

  /** Each of the three branches appends the line as it is. */
  function KeepLine(line: string): string {
    match Classify(line)
    case Numbered => line
    case Bullet => line
    case Plain => line
  }

  /** `format_response_text`: an empty text is returned as it is; otherwise the
      escapes are replaced and the lines are passed through the per-line
      pass and joined again with newlines. */
  function FormatResponseText(text: string): string {
    if text == [] then text
    else
      var lines := SplitOn(Unescape(text), '\n');
      JoinWith(seq(|lines|, i requires 0 <= i < |lines| => KeepLine(lines[i])), '\n')
  }

  /** An empty reply is returned unchanged. */
  lemma FormatEmptyUnchanged()
    ensures FormatResponseText([]) == []
  {
  }

  /** The per-line pass keeps every line verbatim and in order, so formatting
      is exactly the replacement of escapes. */
  lemma FormatIsUnescape(text: string)
    ensures FormatResponseText(text) == Unescape(text)
  {
    if text != [] {
      var lines := SplitOn(Unescape(text), '\n');
      var kept := seq(|lines|, i requires 0 <= i < |lines| => KeepLine(lines[i]));
      assert kept == lines;
      JoinSplit(Unescape(text), '\n');
    }
  }

  /** The formatted text has the lines of the unescaped text, each verbatim
      and in the same order. */
  lemma FormatKeepsLines(text: string)
    ensures SplitOn(FormatResponseText(text), '\n') == SplitOn(Unescape(text), '\n')
  {
    FormatIsUnescape(text);
  }

  /** The first character of an unescaped non-empty text. */
  lemma UnescapeHead(s: string)
    requires s != []
    ensures EscapedNewline <= s ==> Unescape(s) == "\n" + Unescape(s[2..])
    ensures !(EscapedNewline <= s) ==> Unescape(s) == [s[0]] + Unescape(s[1..])
  {
  }

  /** The first character of an escaped non-empty text. */
  lemma EscapeHead(r: string)
    requires r != []
    ensures r[0] == '\n' ==> Escape(r) == EscapedNewline + Escape(r[1..])
    ensures r[0] != '\n' ==> Escape(r) == [r[0]] + Escape(r[1..])
  {
  }

  /** A piece without backslashes passes through the replacement as it is. */
  lemma {:induction false} UnescapePlain(a: string, b: string)
    requires '\\' !in a
    ensures Unescape(a + b) == a + Unescape(b)
    decreases |a|
  {
    if a != [] {
      assert a[0] in a && (a + b)[0] == a[0] && EscapedNewline[0] == '\\';
      assert !(EscapedNewline <= a + b);
      UnescapeHead(a + b);
      assert (a + b)[1..] == a[1..] + b;
      UnescapePlain(a[1..], b);
      calc {
        Unescape(a + b);
        [a[0]] + Unescape(a[1..] + b);
        [a[0]] + (a[1..] + Unescape(b));
        { assert a == [a[0]] + a[1..]; }
        a + Unescape(b);
      }
    } else {
      assert a + b == b;
    }
  }

  /** No backslash-n pair survives the replacement. */
  lemma {:induction false} UnescapeLeavesNoEscape(s: string)
    ensures !Contains(Unescape(s), EscapedNewline)
    decreases |s|
  {
    if s != [] {
      UnescapeHead(s);
      if EscapedNewline <= s {
        UnescapeLeavesNoEscape(s[2..]);
        assert Unescape(s)[1..] == Unescape(s[2..]);
      } else {
        UnescapeLeavesNoEscape(s[1..]);
        var u := Unescape(s[1..]);
        assert Unescape(s)[1..] == u;
        if u != [] {
          UnescapeHead(s[1..]);
          assert u[0] != 'n' || s[0] != '\\';
        }
      }
    }
  }

  /** Formatting twice is formatting once. */
  lemma FormatIdempotent(text: string)
    ensures FormatResponseText(FormatResponseText(text)) == FormatResponseText(text)
  {
    FormatIsUnescape(text);
    FormatIsUnescape(Unescape(text));
    UnescapeLeavesNoEscape(text);
    ReplaceAbsent(Unescape(text), EscapedNewline, "\n");
  }

  /** Unescaping undoes escaping of any text without a backslash-n pair. */
  lemma {:induction false} UnescapeEscape(r: string)
    requires !Contains(r, EscapedNewline)
    ensures Unescape(Escape(r)) == r
    decreases |r|
  {
    if r != [] {
      var e := Escape(r[1..]);
      UnescapeEscape(r[1..]);
      if r[0] == '\n' {
        assert Escape(r) == EscapedNewline + e;
        UnescapeHead(Escape(r));
        assert (EscapedNewline + e)[2..] == e;
      } else {
        assert Escape(r) == [r[0]] + e;
        if r[1..] != [] {
          EscapeHead(r[1..]);
        }
        assert !(EscapedNewline <= Escape(r));
        UnescapeHead(Escape(r));
        assert ([r[0]] + e)[1..] == e;
      }
    }
  }

  /** Escaping undoes unescaping of any text without a real newline. */
  lemma {:induction false} EscapeUnescape(s: string)
    requires '\n' !in s
    ensures Escape(Unescape(s)) == s
    decreases |s|
  {
    if s != [] {
      UnescapeHead(s);
      if EscapedNewline <= s {
        EscapeUnescape(s[2..]);
        assert Escape(Unescape(s)) == EscapedNewline + Escape(Unescape(s[2..]));
        assert s == s[..2] + s[2..];
      } else {
        EscapeUnescape(s[1..]);
        EscapeHead(Unescape(s));
        assert Unescape(s)[1..] == Unescape(s[1..]);
      }
    }
  }

  /** A line without backslashes followed by an escape comes out as that line
      and a real line break. */
  lemma UnescapeLineThen(line: string, rest: string)
    requires '\\' !in line
    ensures Unescape(line + EscapedNewline + rest) == line + "\n" + Unescape(rest)
  {
    var t := EscapedNewline + rest;
    assert line + EscapedNewline + rest == line + t;
    UnescapePlain(line, t);
    UnescapeHead(t);
    assert t[2..] == rest;
  }

  /** The escape sequence in a reply becomes a real line break. */
  lemma FormatTwoLines(raw: string)
    requires raw == "Line1" + EscapedNewline + "Line2"
    ensures FormatResponseText(raw) == "Line1\nLine2"
  {
    FormatIsUnescape(raw);
    UnescapeLineThen("Line1", "Line2");
    UnescapePlain("Line2", []);
    assert "Line2" + [] == "Line2";
  }

  /** Numbered and bullet lines survive intact, each as its own line. */
  lemma FormatKeepsListLines(raw: string)
    requires raw == "1) Item one" + EscapedNewline + "- bullet item" + EscapedNewline + "Normal paragraph"
    ensures SplitOn(FormatResponseText(raw), '\n') == ["1) Item one", "- bullet item", "Normal paragraph"]
  {
    var lines := ["1) Item one", "- bullet item", "Normal paragraph"];
    UnescapeThreeLines(raw, lines[0], lines[1], lines[2]);
    FormatIsUnescape(raw);
    SplitJoin(lines, '\n');
  }

  lemma UnescapeThreeLines(raw: string, a: string, b: string, c: string)
    requires '\\' !in a && '\\' !in b && '\\' !in c
    requires raw == a + EscapedNewline + b + EscapedNewline + c
    ensures Unescape(raw) == JoinWith([a, b, c], '\n')
  {
    var rest := b + EscapedNewline + c;
    assert raw == a + EscapedNewline + rest;
    UnescapeLineThen(a, rest);
    UnescapeLineThen(b, c);
    UnescapePlain(c, []);
    assert c + [] == c;
    assert [a, b, c][1..] == [b, c] && [b, c][1..] == [c];
    assert JoinWith([b, c], '\n') == b + "\n" + c;
    assert JoinWith([a, b, c], '\n') == a + "\n" + (b + "\n" + c);
  }

  /** A line opening with a digit and a closing parenthesis is a numbered
      item. */
  lemma ClassifyNumbered(line: string)
    requires |line| >= 2 && IsDigit(line[0]) && line[1] == ')'
    ensures Classify(line) == Numbered
  {
    var p := line[..Min(5, |line|)];
    assert ")" <= p[1..];
    assert Contains(p[1..], ")");
    assert TrimLeft(line) == line;
    assert !IsSpace(line[0]);
    assert Strip(line) != [] && Strip(line)[0] == line[0];
  }

  /** A line opening with a dash is a bullet item. */
  lemma ClassifyBullet(line: string)
    requires |line| >= 1 && line[0] == '-'
    ensures Classify(line) == Bullet
  {
    assert TrimLeft(line) == line;
    assert Strip(line)[0] == '-';
  }

  /** A line opening with a letter is plain text. */
  lemma ClassifyPlain(line: string)
    requires |line| >= 1 && IsAlpha(line[0])
    ensures Classify(line) == Plain
  {
    assert TrimLeft(line) == line;
    assert Strip(line)[0] == line[0];
  }
}

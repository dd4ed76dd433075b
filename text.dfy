/** The pieces of Python's `str` and `list` behaviour the support application
    relies on, over ASCII: whitespace, case, `strip`, `split()`, `split(sep)`,
    `sep.join`, `in` and `replace`.  Strings are sequences of characters;
    `split(sep)` and `sep.join` are stated once for any element type, so the
    same definitions serve text split on '\n' and chunk lists split on "\n". */
module Text {

  // ---------------------------------------------------------------------------
  // Characters
  // ---------------------------------------------------------------------------

  /** ASCII whitespace as `str.isspace` sees it: space, \t \n \v \f \r and the
      four separators \x1c..\x1f. */
  predicate IsSpace(c: char) {
    c == ' ' || ('\t' <= c <= '\r') || ('\U{1C}' <= c <= '\U{1F}')
  }

  predicate IsAlpha(c: char) {
    ('a' <= c <= 'z') || ('A' <= c <= 'Z')
  }

  predicate IsDigit(c: char) {
    '0' <= c <= '9'
  }

  function LowerChar(c: char): char {
    if 'A' <= c <= 'Z' then (c as int + 32) as char else c
  }

  /** `s.lower()` */
  function Lower(s: string): (r: string)
    ensures |r| == |s|
    ensures forall i :: 0 <= i < |s| ==> r[i] == LowerChar(s[i])
  {
    seq(|s|, i requires 0 <= i < |s| => LowerChar(s[i]))
  }

  /** `s.isalpha()`: non-empty and letters only. */
  predicate IsAlphaWord(s: string) {
    |s| > 0 && forall i :: 0 <= i < |s| ==> IsAlpha(s[i])
  }

  /** Every character is whitespace (this includes the empty string). */
  predicate Blank(s: string) {
    forall i :: 0 <= i < |s| ==> IsSpace(s[i])
  }

  /** A whitespace-free, non-empty piece: what `split()` produces. */
  predicate IsWord(w: string) {
    |w| > 0 && forall i :: 0 <= i < |w| ==> !IsSpace(w[i])
  }

  // ---------------------------------------------------------------------------
  // strip
  // ---------------------------------------------------------------------------

  /** `s.lstrip()`: the suffix left after the leading whitespace. */
  function TrimLeft(s: string): (r: string)
    ensures |r| <= |s| && r == s[|s| - |r|..]
    ensures forall i :: 0 <= i < |s| - |r| ==> IsSpace(s[i])
    ensures r != [] ==> !IsSpace(r[0])
    decreases |s|
  {
    if s != [] && IsSpace(s[0]) then TrimLeft(s[1..]) else s
  }

  /** `s.rstrip()`: the prefix left before the trailing whitespace. */
  function TrimRight(s: string): (r: string)
    ensures |r| <= |s| && r == s[..|r|]
    ensures forall i :: |r| <= i < |s| ==> IsSpace(s[i])
    ensures r != [] ==> !IsSpace(r[|r| - 1])
    decreases |s|
  {
    if s != [] && IsSpace(s[|s| - 1]) then TrimRight(s[..|s| - 1]) else s
  }

  /** `s.strip()`; it is empty exactly when `s` is blank, which is what the
      source's `if line.strip():` tests. */
  function Strip(s: string): (r: string)
    ensures r == [] <==> Blank(s)
    ensures r != [] ==> !IsSpace(r[0]) && !IsSpace(r[|r| - 1])
  {
    var l := TrimLeft(s);
    var r := TrimRight(l);
    assert r != [] ==> !IsSpace(l[0]);
    assert r == [] ==> Blank(s) by {
      if r == [] {
        forall i | 0 <= i < |s| ensures IsSpace(s[i]) {
          if i >= |s| - |l| {
            assert s[i] == l[i - (|s| - |l|)];
          }
        }
      }
    }
    r
  }

  /** A text that neither starts nor ends with whitespace is its own strip. */
  lemma StripUnpadded(s: string)
    requires s != [] && !IsSpace(s[0]) && !IsSpace(s[|s| - 1])
    ensures Strip(s) == s
  {
  }

  // ---------------------------------------------------------------------------
  // split() on whitespace
  // ---------------------------------------------------------------------------

  /** Length of the word that starts `s`. */
  function WordEnd(s: string): (k: nat)
    requires s != [] && !IsSpace(s[0])
    ensures 1 <= k <= |s|
    ensures forall i :: 0 <= i < k ==> !IsSpace(s[i])
    ensures k < |s| ==> IsSpace(s[k])
    decreases |s|
  {
    if |s| == 1 || IsSpace(s[1]) then 1 else 1 + WordEnd(s[1..])
  }

  /** `s.split()`: the maximal runs of non-whitespace, in order. */
  function Words(s: string): (ws: seq<string>)
    ensures forall i :: 0 <= i < |ws| ==> IsWord(ws[i])
    ensures ws == [] <==> Blank(s)
    decreases |s|
  {
    if s == [] then []
    else if IsSpace(s[0]) then Words(s[1..])
    else
      var k := WordEnd(s);
      [s[..k]] + Words(s[k..])
  }

  /** The word that starts a text followed by nothing or by whitespace is
      exactly that word. */
  lemma {:induction false} WordEndOfWord(w: string, tail: string)
    requires IsWord(w)
    requires tail == [] || IsSpace(tail[0])
    ensures WordEnd(w + tail) == |w|
    decreases |w|
  {
    if |w| > 1 {
      assert (w + tail)[1..] == w[1..] + tail;
      WordEndOfWord(w[1..], tail);
    }
  }

  /** Splitting words that were joined with single spaces gives them back. */
  lemma {:induction false} WordsOfJoinSpace(ws: seq<string>)
    requires forall i :: 0 <= i < |ws| ==> IsWord(ws[i])
    ensures Words(JoinWith(ws, ' ')) == ws
    decreases |ws|
  {
    if ws == [] {
    } else {
      var w := ws[0];
      var tail := if |ws| == 1 then [] else [' '] + JoinWith(ws[1..], ' ');
      assert JoinWith(ws, ' ') == w + tail;
      WordEndOfWord(w, tail);
      assert (w + tail)[..|w|] == w;
      assert (w + tail)[|w|..] == tail;
      WordsOfJoinSpace(ws[1..]);
      if |ws| > 1 {
        assert tail[1..] == JoinWith(ws[1..], ' ');
      }
    }
  }

  // ---------------------------------------------------------------------------
  // split(sep) and sep.join, for any element type
  // ---------------------------------------------------------------------------

  /** `s.split(sep)` for a one-element separator: always at least one part,
      and no part contains the separator. */
  function SplitOn<T(==)>(s: seq<T>, sep: T): (parts: seq<seq<T>>)
    ensures |parts| >= 1
    ensures forall i :: 0 <= i < |parts| ==> sep !in parts[i]
    decreases |s|
  {
    if s == [] then [[]]
    else
      var rest := SplitOn(s[1..], sep);
      if s[0] == sep then [[]] + rest
      else [[s[0]] + rest[0]] + rest[1..]
  }

  /** `sep.join(parts)`: the parts with one separator between neighbours. */
  function JoinWith<T>(parts: seq<seq<T>>, sep: T): seq<T>
    decreases |parts|
  {
    if |parts| == 0 then []
    else if |parts| == 1 then parts[0]
    else parts[0] + [sep] + JoinWith(parts[1..], sep)
  }

  /** Flattening: `[x for p in parts for x in p]`. */
  function Concat<T>(parts: seq<seq<T>>): seq<T>
    decreases |parts|
  {
    if parts == [] then [] else parts[0] + Concat(parts[1..])
  }

  /** Joining the parts of a split restores the text. */
  lemma {:induction false} JoinSplit<T>(s: seq<T>, sep: T)
    ensures JoinWith(SplitOn(s, sep), sep) == s
    decreases |s|
  {
    if s != [] {
      var rest := SplitOn(s[1..], sep);
      JoinSplit(s[1..], sep);
      if s[0] == sep {
        assert SplitOn(s, sep) == [[]] + rest;
        assert ([[]] + rest)[1..] == rest;
      } else {
        var parts := [[s[0]] + rest[0]] + rest[1..];
        assert SplitOn(s, sep) == parts;
        if |rest| == 1 {
          assert JoinWith(parts, sep) == [s[0]] + rest[0];
        } else {
          assert parts[1..] == rest[1..];
          assert JoinWith(rest, sep) == rest[0] + [sep] + JoinWith(rest[1..], sep);
        }
      }
    }
  }

  /** Splitting a separator-free piece followed by a separator. */
  lemma {:induction false} SplitOnPrefix<T>(p: seq<T>, sep: T, t: seq<T>, last: bool)
    requires sep !in p
    ensures last ==> SplitOn(p, sep) == [p]
    ensures !last ==> SplitOn(p + [sep] + t, sep) == [p] + SplitOn(t, sep)
    decreases |p|
  {
    if p == [] {
      if !last {
        assert ([] + [sep] + t)[1..] == t;
      }
    } else {
      SplitOnPrefix(p[1..], sep, t, last);
      if last {
        assert [p[0]] + p[1..] == p;
      } else {
        assert (p + [sep] + t)[1..] == p[1..] + [sep] + t;
        assert [p[0]] + p[1..] == p;
      }
    }
  }

  /** Splitting a join of separator-free parts gives the parts back. */
  lemma {:induction false} SplitJoin<T>(parts: seq<seq<T>>, sep: T)
    requires |parts| >= 1
    requires forall i :: 0 <= i < |parts| ==> sep !in parts[i]
    ensures SplitOn(JoinWith(parts, sep), sep) == parts
    decreases |parts|
  {
    if |parts| == 1 {
      SplitOnPrefix(parts[0], sep, [], true);
    } else {
      SplitJoin(parts[1..], sep);
      SplitOnPrefix(parts[0], sep, JoinWith(parts[1..], sep), false);
      assert [parts[0]] + parts[1..] == parts;
    }
  }

  /** A split has one more part than the text has separators. */
  lemma {:induction false} SplitCount<T>(s: seq<T>, sep: T)
    ensures |SplitOn(s, sep)| == multiset(s)[sep] + 1
    decreases |s|
  {
    if s != [] {
      SplitCount(s[1..], sep);
      assert s == [s[0]] + s[1..];
    }
  }

  /** A join of separator-free parts holds one separator fewer than parts. */
  lemma {:induction false} JoinCount<T>(parts: seq<seq<T>>, sep: T)
    requires |parts| >= 1
    requires forall i :: 0 <= i < |parts| ==> sep !in parts[i]
    ensures multiset(JoinWith(parts, sep))[sep] == |parts| - 1
    decreases |parts|
  {
    if |parts| > 1 {
      JoinCount(parts[1..], sep);
    }
  }

  // ---------------------------------------------------------------------------
  // `sub in s` and `s.replace(target, replacement)`
  // ---------------------------------------------------------------------------

  /** `sub in s`: some position of `s` starts with `sub`. */
  predicate Contains(s: string, sub: string)
    decreases |s|
  {
    sub <= s || (s != [] && Contains(s[1..], sub))
  }

  /** `any(sub in s for sub in subs)` */
  predicate ContainsAny(s: string, subs: seq<string>) {
    exists i :: 0 <= i < |subs| && Contains(s, subs[i])
  }

  /** `s.replace("", r)`: `r` before every character and at the end. */
  function InsertEverywhere(s: string, r: string): string
    decreases |s|
  {
    if s == [] then r else r + [s[0]] + InsertEverywhere(s[1..], r)
  }

  /** `s.replace(target, replacement)`: scanning left to right, every
      occurrence of `target` that does not overlap an earlier replaced one is
      replaced. */
  function Replace(s: string, target: string, replacement: string): string
    decreases |s|
  {
    if target == [] then InsertEverywhere(s, replacement)
    else if s == [] then []
    else if target <= s then replacement + Replace(s[|target|..], target, replacement)
    else [s[0]] + Replace(s[1..], target, replacement)
  }

  /** Replacing a text by itself changes nothing. */
  lemma ReplaceSame(s: string, t: string)
    ensures Replace(s, t, t) == s
  {
    if t == [] {
      InsertNothing(s);
    } else {
      ReplaceSameNonEmpty(s, t);
    }
  }

  lemma {:induction false} ReplaceSameNonEmpty(s: string, t: string)
    requires t != []
    ensures Replace(s, t, t) == s
    decreases |s|
  {
    if s != [] {
      if t <= s {
        var rest := s[|t|..];
        ReplaceSameNonEmpty(rest, t);
        assert s == t + rest;
      } else {
        ReplaceSameNonEmpty(s[1..], t);
        assert s == [s[0]] + s[1..];
      }
    }
  }

  lemma {:induction false} InsertNothing(s: string)
    ensures InsertEverywhere(s, []) == s
    decreases |s|
  {
    if s != [] {
      InsertNothing(s[1..]);
    }
  }

  /** Without an occurrence of a non-empty target, replace is the identity. */
  lemma {:induction false} ReplaceAbsent(s: string, t: string, r: string)
    requires t != [] && !Contains(s, t)
    ensures Replace(s, t, r) == s
    decreases |s|
  {
    if s != [] {
      ReplaceAbsent(s[1..], t, r);
    }
  }

  /** After replacing an occurrence, the replacement occurs. */
  lemma {:induction false} ReplaceIntroduces(s: string, t: string, r: string)
    requires Contains(s, t)
    ensures Contains(Replace(s, t, r), r)
    decreases |s|
  {
    if t == [] {
      assert r <= InsertEverywhere(s, r);
    } else if t <= s {
      assert r <= Replace(s, t, r);
    } else {
      ReplaceIntroduces(s[1..], t, r);
    }
  }

  /** Removing a character (`s.replace(c, "")`) leaves none of it and adds
      no other. */
  lemma {:induction false} RemoveCharLeavesNone(s: string, c: char)
    ensures c !in Replace(s, [c], [])
    ensures forall x :: x in Replace(s, [c], []) ==> x in s
    decreases |s|
  {
    if s != [] {
      RemoveCharLeavesNone(s[1..], c);
      if [c] <= s {
        assert s[|[c]|..] == s[1..];
      }
    }
  }

  /** An occurrence inside a prefix of `s` is an occurrence in `s`. */
  lemma {:induction false} ContainsInPrefix(t: string, s: string, u: string)
    requires t <= s && Contains(t, u)
    ensures Contains(s, u)
    decreases |t|
  {
    if !(u <= t) {
      ContainsInPrefix(t[1..], s[1..], u);
    }
  }

  /** `in` is transitive: an occurrence of an occurrence is an occurrence. */
  lemma {:induction false} ContainsTrans(s: string, t: string, u: string)
    requires Contains(s, t) && Contains(t, u)
    ensures Contains(s, u)
    decreases |s|
  {
    if t <= s {
      ContainsInPrefix(t, s, u);
    } else {
      ContainsTrans(s[1..], t, u);
    }
  }

  /** Every character of an occurrence occurs in the text. */
  lemma {:induction false} ContainsChar(s: string, sub: string, k: nat)
    requires Contains(s, sub) && k < |sub|
    ensures sub[k] in s
    decreases |s|
  {
    if sub <= s {
      assert s[k] == sub[k];
    } else {
      ContainsChar(s[1..], sub, k);
      assert s == [s[0]] + s[1..];
    }
  }

  /** The first two characters of an occurrence stand side by side in the
      text. */
  lemma {:induction false} ContainsPair(s: string, sub: string)
    requires Contains(s, sub) && |sub| >= 2
    ensures exists i :: 0 <= i < |s| - 1 && s[i] == sub[0] && s[i + 1] == sub[1]
    decreases |s|
  {
    if sub <= s {
      assert s[0] == sub[0] && s[1] == sub[1];
    } else {
      ContainsPair(s[1..], sub);
      var i :| 0 <= i < |s[1..]| - 1 && s[1..][i] == sub[0] && s[1..][i + 1] == sub[1];
      assert s[i + 1] == sub[0] && s[i + 2] == sub[1];
    }
  }

  /** Every slice of a text occurs in it. */
  lemma {:induction false} ContainsSlice(s: string, i: nat, j: nat)
    requires i <= j <= |s|
    ensures Contains(s, s[i..j])
    decreases i
  {
    if i > 0 {
      ContainsSlice(s[1..], i - 1, j - 1);
      assert s[1..][i - 1..j - 1] == s[i..j];
    }
  }

  /** The stripped text is a slice of the text. */
  lemma StripSlice(s: string)
    ensures exists i, j :: 0 <= i <= j <= |s| && Strip(s) == s[i..j]
  {
    var l := TrimLeft(s);
    var r := TrimRight(l);
    var i := |s| - |l|;
    assert r == s[i..i + |r|];
  }

  /** The stripped text occurs in the text. */
  lemma StripContained(s: string)
    ensures Contains(s, Strip(s))
    ensures forall c :: c in Strip(s) ==> c in s
  {
    StripSlice(s);
    var i, j :| 0 <= i <= j <= |s| && Strip(s) == s[i..j];
    ContainsSlice(s, i, j);
  }

  /** The first part of a split is a prefix of the text. */
  lemma {:induction false} SplitFirstIsPrefix(s: string, sep: char)
    ensures SplitOn(s, sep)[0] <= s
    decreases |s|
  {
    if s != [] && s[0] != sep {
      SplitFirstIsPrefix(s[1..], sep);
      assert s == [s[0]] + s[1..];
    }
  }

  /** Every part of a split occurs in the text. */
  lemma {:induction false} SplitPartContained(s: string, sep: char, k: nat)
    requires k < |SplitOn(s, sep)|
    ensures Contains(s, SplitOn(s, sep)[k])
    decreases |s|
  {
    var parts := SplitOn(s, sep);
    if s == [] {
      assert parts[k] == [];
    } else {
      var rest := SplitOn(s[1..], sep);
      if s[0] == sep {
        if k == 0 {
          assert [] <= s;
        } else {
          SplitPartContained(s[1..], sep, k - 1);
        }
      } else if k == 0 {
        SplitFirstIsPrefix(s[1..], sep);
        assert parts[0] == [s[0]] + rest[0];
        assert parts[0] <= s;
      } else {
        assert parts[k] == rest[k];
        SplitPartContained(s[1..], sep, k);
      }
    }
  }

  /** A text holding the separator splits into at least two parts. */
  lemma SplitHasSecond(s: string, sep: char)
    requires sep in s
    ensures |SplitOn(s, sep)| >= 2
  {
    SplitCount(s, sep);
  }

  /** Replacing one character by another, character by character. */
  lemma {:induction false} ReplaceCharPointwise(s: string, c: char, d: char)
    ensures |Replace(s, [c], [d])| == |s|
    ensures forall i :: 0 <= i < |s| ==>
      Replace(s, [c], [d])[i] == (if s[i] == c then d else s[i])
    decreases |s|
  {
    if s != [] {
      ReplaceCharPointwise(s[1..], c, d);
      var r := Replace(s[1..], [c], [d]);
      assert Replace(s, [c], [d]) == [if s[0] == c then d else s[0]] + r by {
        if [c] <= s {
          assert s[|[c]|..] == s[1..];
        }
      }
    }
  }
}

/** Streaming chunking of the support application: `split_text_for_streaming`
    in Functions.py, whose copy `_split_text_for_streaming` in main.py is the
    same code and is modelled by the same members.  A reply is cut into its
    lines; each non-blank line is cut greedily into groups of words, and a
    line-break marker stands between the chunks of consecutive lines. */
module Streaming {
  import opened Text

  /** A chunk is flushed once it is longer than this many characters. */
  const ChunkLimit: nat := 20

  /** The line-break marker put between the chunks of consecutive lines. */
  const LineBreak: string := "\n"

  /** `" ".join(words)` */
  function JoinSpace(words: seq<string>): string {
    JoinWith(words, ' ')
  }

  /** The inner loop of `split_text_for_streaming` as a function of its
      state: the words still to come and `current_chunk`.  A word is appended
      to the current chunk (after a space unless it is empty), and the chunk is
      flushed when it is longer than the limit or the word EQUALS the line's
      last word (`word == words[-1]` compares values, so an earlier copy of
      the last word flushes too). */
  function ChunkFrom(words: seq<string>, last: string, current: string): seq<string>
    decreases |words|
  {
    if words == [] then []
    else
      var grown := if current != [] then current + " " + words[0] else words[0];
      if |grown| > ChunkLimit || words[0] == last then [grown] + ChunkFrom(words[1..], last, "")
      else ChunkFrom(words[1..], last, grown)
  }

  /** The chunks one line contributes: none for a blank line. */
  function LineChunks(line: string): seq<string> {
    if Strip(line) == [] then []
    else
      var words := Words(line);
      ChunkFrom(words, words[|words| - 1], "")
  }

  // The same loop seen as a partition of the line's words into groups.

  /** The word groups the inner loop flushes; `pending` holds the words of
      the current chunk. */
  function Groups(words: seq<string>, last: string, pending: seq<string>): seq<seq<string>>
    decreases |words|
  {
    if words == [] then []
    else
      var grown := pending + [words[0]];
      if |JoinSpace(grown)| > ChunkLimit || words[0] == last then [grown] + Groups(words[1..], last, [])
      else Groups(words[1..], last, grown)
  }

  /** The word groups of one line. */
  function LineGroups(line: string): seq<seq<string>> {
    if Strip(line) == [] then []
    else
      var words := Words(line);
      Groups(words, words[|words| - 1], [])
  }

  function JoinEach(groups: seq<seq<string>>): seq<string> {
    seq(|groups|, k requires 0 <= k < |groups| => JoinSpace(groups[k]))
  }

  predicate AllWords(ws: seq<string>) {
    forall k :: 0 <= k < |ws| ==> IsWord(ws[k])
  }

  /** A group was flushed for a reason the source gives: it is longer than the
      limit or ends with a copy of the last word; and it was not flushed
      earlier: every shorter prefix is within the limit and does not end with
      a copy of the last word. */
  predicate WellFlushed(g: seq<string>, last: string) {
    && |g| >= 1
    && (|JoinSpace(g)| > ChunkLimit || g[|g| - 1] == last)
    && Unflushed(g[..|g| - 1], last)
  }

  /** No prefix of `p` would have been flushed. */
  predicate Unflushed(p: seq<string>, last: string) {
    forall j :: 1 <= j <= |p| ==> |JoinSpace(p[..j])| <= ChunkLimit && p[j - 1] != last
  }

  function ChunksPerLine(lines: seq<string>): seq<seq<string>> {
    seq(|lines|, i requires 0 <= i < |lines| => LineChunks(lines[i]))
  }

  /** `split_text_for_streaming`, as a function of the text: each line's
      chunks, with a line-break marker between consecutive lines. */
  function StreamChunks(text: string): seq<string> {
    JoinWith(ChunksPerLine(SplitOn(text, '\n')), LineBreak)
  }

  /** What the outer loop has emitted after `i` lines. */
  ghost function Emitted(perLine: seq<seq<string>>, i: nat): seq<string>
    requires i <= |perLine|
  {
    if i == 0 then []
    else JoinWith(perLine[..i], LineBreak) + (if i < |perLine| then [LineBreak] else [])
  }

  lemma {:induction false} JoinWithSnoc<T>(parts: seq<seq<T>>, sep: T, p: seq<T>)
    requires |parts| >= 1
    ensures JoinWith(parts + [p], sep) == JoinWith(parts, sep) + [sep] + p
    decreases |parts|
  {
    if |parts| > 1 {
      JoinWithSnoc(parts[1..], sep, p);
      assert (parts + [p])[1..] == parts[1..] + [p];
    }
  }

  /** One step of the inner loop, on the remaining words. */
  lemma ChunkFromStep(words: seq<string>, j: nat, last: string, current: string)
    requires j < |words|
    ensures var grown := if current != [] then current + " " + words[j] else words[j];
      ChunkFrom(words[j..], last, current)
        == if |grown| > ChunkLimit || words[j] == last
           then [grown] + ChunkFrom(words[j + 1..], last, "")
           else ChunkFrom(words[j + 1..], last, grown)
  {
    assert words[j..][0] == words[j];
    assert words[j..][1..] == words[j + 1..];
  }

  /** The inner loop of `split_text_for_streaming`, over the words of one
      line: grow `current_chunk` word by word and append it when it is
      flushed. */
  method ChunkWords(words: seq<string>, last: string) returns (lineChunks: seq<string>)
    ensures lineChunks == ChunkFrom(words, last, "")
  {
    lineChunks := [];
    var current: string := "";
    for j := 0 to |words|
      invariant lineChunks + ChunkFrom(words[j..], last, current) == ChunkFrom(words, last, "")
    {
      var word := words[j];
      ChunkFromStep(words, j, last, current);
      ghost var rest := ChunkFrom(words[j..], last, current);
      if current != [] {
        current := current + " " + word;
      } else {
        current := word;
      }
      if |current| > ChunkLimit || word == last {
        assert rest == [current] + ChunkFrom(words[j + 1..], last, "");
        lineChunks := lineChunks + [current];
        current := "";
      } else {
        assert rest == ChunkFrom(words[j + 1..], last, current);
      }
    }
  }

  /** The body of the line loop of `split_text_for_streaming` up to the
      marker: a line with something other than whitespace is split into words
      and chunked. */
  method ChunkLine(line: string) returns (lineChunks: seq<string>)
    ensures lineChunks == LineChunks(line)
  {
    lineChunks := [];
    if Strip(line) != [] {
      var words := Words(line);
      lineChunks := ChunkWords(words, words[|words| - 1]);
    }
  }

  /** One round of the line loop appends the line's chunks and, unless it
      is the last line, the marker. */
  lemma EmittedStep(perLine: seq<seq<string>>, i: nat)
    requires i < |perLine|
    ensures Emitted(perLine, i + 1)
         == Emitted(perLine, i) + perLine[i] + (if i < |perLine| - 1 then [LineBreak] else [])
  {
    assert perLine[..i + 1] == perLine[..i] + [perLine[i]];
    if i > 0 {
      JoinWithSnoc(perLine[..i], LineBreak, perLine[i]);
    } else {
      assert perLine[..1] == [perLine[0]];
    }
  }

  /** `split_text_for_streaming` as the source runs it: a loop over the lines
      that appends each line's chunks and, between lines, the marker. */
  method SplitTextForStreaming(text: string) returns (chunks: seq<string>)
    ensures chunks == StreamChunks(text)
  {
    chunks := [];
    var lines := SplitOn(text, '\n');
    ghost var perLine := ChunksPerLine(lines);
    for i := 0 to |lines|
      invariant chunks == Emitted(perLine, i)
    {
      EmittedStep(perLine, i);
      var lineChunks := ChunkLine(lines[i]);
      assert lineChunks == perLine[i];
      chunks := chunks + lineChunks;
      if i < |lines| - 1 {
        chunks := chunks + [LineBreak];
      }
    }
    assert perLine[..|lines|] == perLine;
  }

  // ---------------------------------------------------------------------------
  // What the chunks of a line are
  // ---------------------------------------------------------------------------

  /** Words joined with spaces are empty only when there are no words. */
  lemma JoinSpaceEmpty(ws: seq<string>)
    requires AllWords(ws)
    ensures JoinSpace(ws) == [] <==> ws == []
  {
    if ws != [] {
      assert |JoinSpace(ws)| >= |ws[0]|;
    }
  }

  /** Joined words hold no line break. */
  lemma {:induction false} JoinSpaceNoLineBreak(ws: seq<string>)
    requires AllWords(ws)
    ensures '\n' !in JoinSpace(ws)
    decreases |ws|
  {
    if |ws| > 1 {
      JoinSpaceNoLineBreak(ws[1..]);
      assert IsWord(ws[0]) && '\n' !in ws[0];
    } else if |ws| == 1 {
      assert IsWord(ws[0]) && '\n' !in ws[0];
    }
  }

  /** The string loop and the word groups agree: each chunk is the words of
      its group joined with single spaces. */
  lemma {:induction false} ChunkFromIsGroups(words: seq<string>, last: string, pending: seq<string>)
    requires AllWords(words) && AllWords(pending)
    ensures ChunkFrom(words, last, JoinSpace(pending)) == JoinEach(Groups(words, last, pending))
    decreases |words|
  {
    if words != [] {
      var w := words[0];
      var grown := pending + [w];
      JoinSpaceEmpty(pending);
      if pending != [] {
        JoinWithSnoc(pending, ' ', w);
      }
      assert JoinSpace(grown) == if JoinSpace(pending) != [] then JoinSpace(pending) + " " + w else w;
      assert AllWords(words[1..]) && AllWords(grown);
      if |JoinSpace(grown)| > ChunkLimit || w == last {
        ChunkFromIsGroups(words[1..], last, []);
        assert JoinEach([grown] + Groups(words[1..], last, [])) == [JoinSpace(grown)] + JoinEach(Groups(words[1..], last, []));
      } else {
        ChunkFromIsGroups(words[1..], last, grown);
      }
    }
  }

  /** The groups hold the pending words and then the remaining words, in
      order, none lost or repeated, provided the words end with `last`. */
  lemma {:induction false} GroupsCover(words: seq<string>, last: string, pending: seq<string>)
    requires words != [] && words[|words| - 1] == last
    ensures Concat(Groups(words, last, pending)) == pending + words
    decreases |words|
  {
    var w := words[0];
    var grown := pending + [w];
    if |JoinSpace(grown)| > ChunkLimit || w == last {
      if |words| == 1 {
        assert Groups(words, last, pending) == [grown];
        assert Concat([grown]) == grown + Concat([grown][1..]);
        assert words == [w];
      } else {
        GroupsCover(words[1..], last, []);
        assert ([grown] + Groups(words[1..], last, []))[1..] == Groups(words[1..], last, []);
        assert words == [w] + words[1..];
      }
    } else {
      GroupsCover(words[1..], last, grown);
      assert words == [w] + words[1..];
    }
  }

  /** Every group is non-empty, made of words, and flushed exactly when the
      source flushes: see WellFlushed. */
  lemma {:induction false} GroupsShape(words: seq<string>, last: string, pending: seq<string>)
    requires AllWords(words) && AllWords(pending) && Unflushed(pending, last)
    ensures forall k :: 0 <= k < |Groups(words, last, pending)| ==>
      WellFlushed(Groups(words, last, pending)[k], last) && AllWords(Groups(words, last, pending)[k])
    decreases |words|
  {
    if words != [] {
      var w := words[0];
      var grown := pending + [w];
      assert grown[..|grown| - 1] == pending;
      assert AllWords(words[1..]) && AllWords(grown);
      if |JoinSpace(grown)| > ChunkLimit || w == last {
        GroupsShape(words[1..], last, []);
        var gs := Groups(words, last, pending);
        assert gs == [grown] + Groups(words[1..], last, []);
        forall k | 0 <= k < |gs| ensures WellFlushed(gs[k], last) && AllWords(gs[k]) {
          if k > 0 {
            assert gs[k] == Groups(words[1..], last, [])[k - 1];
          }
        }
      } else {
        forall j | 1 <= j <= |grown|
          ensures |JoinSpace(grown[..j])| <= ChunkLimit && grown[j - 1] != last
        {
          if j <= |pending| {
            assert grown[..j] == pending[..j];
          } else {
            assert grown[..j] == grown;
          }
        }
        GroupsShape(words[1..], last, grown);
      }
    }
  }

  /** The last whitespace-separated word of a line (empty for a blank line). */
  function LastWord(line: string): string {
    var words := Words(line);
    if words == [] then [] else words[|words| - 1]
  }

  /** What one line contributes: the chunks are its groups of words joined
      with single spaces; the groups hold the line's words in order, none lost
      or repeated; every group is flushed as the source flushes it; and only a
      blank line contributes nothing. */
  lemma LineChunksMeaning(line: string)
    ensures LineChunks(line) == JoinEach(LineGroups(line))
    ensures Concat(LineGroups(line)) == Words(line)
    ensures forall k :: 0 <= k < |LineGroups(line)| ==>
      WellFlushed(LineGroups(line)[k], LastWord(line)) && AllWords(LineGroups(line)[k])
    ensures LineChunks(line) == [] <==> Blank(line)
  {
    if Strip(line) != [] {
      var words := Words(line);
      var last := words[|words| - 1];
      assert AllWords(words);
      assert JoinSpace([]) == [];
      ChunkFromIsGroups(words, last, []);
      GroupsCover(words, last, []);
      GroupsShape(words, last, []);
      assert Groups(words, last, []) != [];
    }
  }

  /** Splitting each chunk of a line on whitespace and flattening gives back
      the words of the line. */
  lemma LineChunksResplit(line: string)
    ensures var cs := LineChunks(line);
      Concat(seq(|cs|, k requires 0 <= k < |cs| => Words(cs[k]))) == Words(line)
  {
    LineChunksMeaning(line);
    var cs := LineChunks(line);
    var gs := LineGroups(line);
    forall k | 0 <= k < |cs| ensures Words(cs[k]) == gs[k] {
      WordsOfJoinSpace(gs[k]);
    }
    assert seq(|cs|, k requires 0 <= k < |cs| => Words(cs[k])) == gs;
  }

  /** Every chunk of a line is non-empty and holds no line break, so none of
      them can be taken for the marker. */
  lemma LineChunksNoBreak(line: string)
    ensures forall k :: 0 <= k < |LineChunks(line)| ==>
      LineChunks(line)[k] != [] && '\n' !in LineChunks(line)[k]
    ensures LineBreak !in LineChunks(line)
  {
    LineChunksMeaning(line);
    var gs := LineGroups(line);
    forall k | 0 <= k < |gs| ensures JoinSpace(gs[k]) != [] && '\n' !in JoinSpace(gs[k]) {
      JoinSpaceEmpty(gs[k]);
      JoinSpaceNoLineBreak(gs[k]);
    }
    assert '\n' in LineBreak;
  }

  /** Splitting the chunk list at the markers gives back, line by line, the
      chunks of each line: one marker stands between consecutive lines and
      none follows the last one. */
  lemma StreamSplitsIntoLines(text: string)
    ensures SplitOn(StreamChunks(text), LineBreak) == ChunksPerLine(SplitOn(text, '\n'))
  {
    var perLine := ChunksPerLine(SplitOn(text, '\n'));
    forall i | 0 <= i < |perLine| ensures LineBreak !in perLine[i] {
      LineChunksNoBreak(SplitOn(text, '\n')[i]);
    }
    SplitJoin(perLine, LineBreak);
  }

  /** There are as many markers as the text has newlines. */
  lemma StreamMarkerCount(text: string)
    ensures multiset(StreamChunks(text))[LineBreak] == multiset(text)['\n']
  {
    var lines := SplitOn(text, '\n');
    var perLine := ChunksPerLine(lines);
    forall i | 0 <= i < |perLine| ensures LineBreak !in perLine[i] {
      LineChunksNoBreak(lines[i]);
    }
    JoinCount(perLine, LineBreak);
    SplitCount(text, '\n');
  }

  /** A word equal to the line's last word flushes the chunk even before the
      end of the line: "go to go" streams as "go" and "to go". */
  lemma RepeatedLastWordFlushesEarly(w: string, x: string)
    requires w != x && x != [] && |x| <= ChunkLimit
    ensures ChunkFrom([w, x, w], w, "") == [w, x + " " + w]
  {
    var words := [w, x, w];
    ChunkFromStep(words, 0, w, "");
    ChunkFromStep(words, 1, w, "");
    ChunkFromStep(words, 2, w, x);
    assert words[0..] == words && words[3..] == [];
    assert ChunkFrom(words[2..], w, x) == [x + " " + w];
    assert ChunkFrom(words[1..], w, "") == [x + " " + w];
  }
}

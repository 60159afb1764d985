/**
  Patching a top-level array inside the text of a JSON file by the shape of its lines, so that everything
  that is kept stays as it was written. A text is the sequence of its lines.
*/
module TextPatch {
  import opened Options
  import opened Sequences

  type Line = string
  type Text = seq<Line>

  /** The lines of one array element, without the comma after it. */
  type Chunk = seq<Line>

  const CLOSE: Line := "    }"

  predicate Closes(line: Line)
  {
    line == CLOSE || line == CLOSE + ","
  }

  /** The white space that `trim` removes, apart from line ends. */
  predicate IsSpace(c: char)
  {
    || c in {' ', '\t', '\r', '\U{000B}', '\U{000C}', '\U{00A0}', '\U{1680}', '\U{2028}', '\U{2029}', '\U{202F}',
              '\U{205F}', '\U{3000}', '\U{FEFF}'}
    || '\U{2000}' <= c <= '\U{200A}'
  }

  predicate Blank(lines: seq<Line>)
  {
    forall i, j | 0 <= i < |lines| && 0 <= j < |lines[i]| :: IsSpace(lines[i][j])
  }

  // ----- finding the array -----

  function OpenLine(key: string): Line
  {
    "  \"" + key + "\": ["
  }

  predicate OpensAt(text: Text, key: string, i: nat)
  {
    1 <= i < |text| - 1 && text[i] == OpenLine(key)
  }

  predicate EndsAt(text: Text, e: nat)
  {
    1 <= e < |text| && "  ]" <= text[e]
  }

  /** The first opening line, which needs a line before and a line after it. */
  function FindOpen(text: Text, key: string, from: nat): (i: nat)
    requires from <= |text|
    ensures i <= |text| && (i < |text| ==> from <= i && OpensAt(text, key, i))
    ensures forall j: nat | from <= j < i :: !OpensAt(text, key, j)
    decreases |text| - from
  {
    if from == |text| || OpensAt(text, key, from) then from else FindOpen(text, key, from + 1)
  }

  /** The last line that begins like the end of a top-level array; zero if there is none. */
  function FindEnd(text: Text, below: nat): (e: nat)
    requires below <= |text|
    ensures e == 0 || (e < below && EndsAt(text, e))
    ensures forall j: nat | e < j < below :: !EndsAt(text, j)
  {
    if below == 0 then 0 else if EndsAt(text, below - 1) then below - 1 else FindEnd(text, below - 1)
  }

  /** The array runs from after line `open` to before line `end`. */
  predicate ArrayAt(text: Text, key: string, open: nat, end: nat)
  {
    && OpensAt(text, key, open) && EndsAt(text, end) && open < end
    && (forall j: nat | j < open :: !OpensAt(text, key, j))
    && (forall j: nat | end < j < |text| :: !EndsAt(text, j))
  }

  predicate HasArray(text: Text, key: string)
  {
    var open, end := FindOpen(text, key, 0), FindEnd(text, |text|);
    open < |text| && open < end
  }

  lemma FoundArray(text: Text, key: string)
    requires HasArray(text, key)
    ensures ArrayAt(text, key, FindOpen(text, key, 0), FindEnd(text, |text|))
  {
  }

  lemma ArrayIsFound(text: Text, key: string, open: nat, end: nat)
    requires ArrayAt(text, key, open, end)
    ensures HasArray(text, key) && FindOpen(text, key, 0) == open && FindEnd(text, |text|) == end
  {
    var o, e := FindOpen(text, key, 0), FindEnd(text, |text|);
    assert !(o < open) && !(open < o);
    assert !(e < end) && !(end < e);
  }

  /** The lines between; with nothing between, the slice is the empty string, which is one empty line. */
  function Inside(text: Text, open: nat, end: nat): seq<Line>
    requires open < end <= |text|
  {
    if end == open + 1 then [""] else text[open + 1..end]
  }

  // ----- splitting into elements -----

  function Uncomma(chunk: seq<Line>): Chunk
    requires chunk != [] && Closes(chunk[|chunk| - 1])
  {
    chunk[..|chunk| - 1] + [CLOSE]
  }

  /** The elements closed so far and the lines since the last closing line. */
  datatype Split = Split(chunks: seq<Chunk>, current: seq<Line>)

  function Scan(lines: seq<Line>): Split
  {
    if lines == [] then Split([], []) else ScanLine(Scan(lines[..|lines| - 1]), lines[|lines| - 1])
  }

  function ScanLine(s: Split, line: Line): Split
  {
    var current := s.current + [line];
    if Closes(line) then Split(s.chunks + [Uncomma(current)], []) else Split(s.chunks, current)
  }

  // ----- putting elements together -----

  function WithComma(chunk: Chunk): seq<Line>
    requires chunk != []
  {
    chunk[..|chunk| - 1] + [chunk[|chunk| - 1] + ","]
  }

  /** Every element with a comma behind it. */
  function Commaed(chunks: seq<Chunk>): seq<Line>
    requires forall i | 0 <= i < |chunks| :: chunks[i] != []
  {
    if chunks == [] then [] else Commaed(chunks[..|chunks| - 1]) + WithComma(chunks[|chunks| - 1])
  }

  /** The elements joined by commas; no element at all is the empty string, one empty line. */
  function Body(chunks: seq<Chunk>): seq<Line>
    requires forall i | 0 <= i < |chunks| :: chunks[i] != []
  {
    if chunks == [] then [""] else Commaed(chunks[..|chunks| - 1]) + chunks[|chunks| - 1]
  }

  // ----- the patch -----

  /** Reading JSON: an element of the array, and whether a whole text is valid. */
  datatype Reader<!T> = Reader(element: Chunk -> Option<T>, whole: Text -> bool)

  datatype Outcome = Patched(text: Text) | NoArray | Unrecognised | BadElement | BadResult

  predicate AllRead<T>(chunks: seq<Chunk>, reader: Reader<T>)
  {
    forall i | 0 <= i < |chunks| :: reader.element(chunks[i]).Some?
  }

  function Kept<T>(chunks: seq<Chunk>, reader: Reader<T>, keep: T -> bool): (kept: seq<Chunk>)
    requires AllRead(chunks, reader)
    ensures forall i | 0 <= i < |kept| :: kept[i] in chunks && keep(reader.element(kept[i]).value)
  {
    if chunks == [] then []
    else
      var last := chunks[|chunks| - 1];
      var rest := chunks[..|chunks| - 1];
      assert last in chunks && forall c | c in rest :: c in chunks;
      Kept(rest, reader, keep) + (if keep(reader.element(last).value) then [last] else [])
  }

  function Checked<T>(text: Text, reader: Reader<T>): Outcome
  {
    if reader.whole(text) then Patched(text) else BadResult
  }

  /** The text with the array's contents replaced. */
  function Replaced(text: Text, open: nat, end: nat, chunks: seq<Chunk>): Text
    requires open < end <= |text| && forall i | 0 <= i < |chunks| :: chunks[i] != []
  {
    text[..open + 1] + Body(chunks) + text[end..]
  }

  lemma {:induction false} ScanShape(lines: seq<Line>)
    ensures forall i | 0 <= i < |Scan(lines).chunks| :: IsChunk(Scan(lines).chunks[i])
    ensures forall i | 0 <= i < |Scan(lines).current| :: !Closes(Scan(lines).current[i])
  {
    if lines != [] { ScanShape(lines[..|lines| - 1]); }
  }

  /** An element: it ends with the closing line and no earlier line closes. */
  predicate IsChunk(chunk: Chunk)
  {
    && chunk != [] && chunk[|chunk| - 1] == CLOSE
    && forall i | 0 <= i < |chunk| - 1 :: !Closes(chunk[i])
  }

  function Patch<T>(text: Text, key: string, reader: Reader<T>, keep: T -> bool, extra: seq<Chunk>): Outcome
    requires forall i | 0 <= i < |extra| :: extra[i] != []
  {
    if !HasArray(text, key) then NoArray
    else
      var open, end := FindOpen(text, key, 0), FindEnd(text, |text|);
      var split := Scan(Inside(text, open, end));
      if !Blank(split.current) then Unrecognised
      else if !AllRead(split.chunks, reader) then BadElement
      else
        ScanShape(Inside(text, open, end));
        Checked(Replaced(text, open, end, Kept(split.chunks, reader, keep) + extra), reader)
  }

  /** The patcher, line by line. */
  method PatchArrayText<T>(text: Text, key: string, reader: Reader<T>, keep: T -> bool, extra: seq<Chunk>)
    returns (out: Outcome)
    requires forall i | 0 <= i < |extra| :: extra[i] != []
    ensures out == Patch(text, key, reader, keep, extra)
  {
    var open, end := FindOpen(text, key, 0), FindEnd(text, |text|);
    if open == |text| || end <= open { return NoArray; }
    var lines := Inside(text, open, end);
    var chunks: seq<Chunk>, current: seq<Line> := [], [];
    for i := 0 to |lines|
      invariant Split(chunks, current) == Scan(lines[..i])
    {
      assert lines[..i + 1][..i] == lines[..i];
      current := current + [lines[i]];
      if Closes(lines[i]) {
        chunks := chunks + [Uncomma(current)];
        current := [];
      }
    }
    assert lines[..|lines|] == lines;
    if !Blank(current) { return Unrecognised; }
    if !AllRead(chunks, reader) { return BadElement; }
    ScanShape(lines);
    out := Checked(Replaced(text, open, end, Kept(chunks, reader, keep) + extra), reader);
  }

  // ----- printing is undone by splitting -----

  lemma ScanSnoc(lines: seq<Line>, line: Line)
    ensures Scan(lines + [line]) == ScanLine(Scan(lines), line)
  {
    assert (lines + [line])[..|lines|] == lines;
  }

  lemma ScanOpenLine(lines: seq<Line>, front: seq<Line>, last: Line)
    requires !Closes(last) && Scan(lines + front) == Split(Scan(lines).chunks, Scan(lines).current + front)
    ensures Scan(lines + (front + [last])) == Split(Scan(lines).chunks, Scan(lines).current + (front + [last]))
  {
    ScanSnoc(lines + front, last);
    Assoc(lines, front, [last]);
    Assoc(Scan(lines).current, front, [last]);
  }

  lemma {:induction false} ScanOpenLines(lines: seq<Line>, more: seq<Line>)
    requires forall i | 0 <= i < |more| :: !Closes(more[i])
    ensures Scan(lines + more) == Split(Scan(lines).chunks, Scan(lines).current + more)
  {
    if more == [] {
      assert lines + more == lines;
    } else {
      var n := |more| - 1;
      ScanOpenLines(lines, more[..n]);
      ScanOpenLine(lines, more[..n], more[n]);
      LastSplit(more);
    }
  }

  /** Reading on over one more element, its closing line with or without a comma. */
  lemma ScanElement(lines: seq<Line>, front: seq<Line>, last: Line)
    requires Scan(lines).current == [] && Closes(last) && forall i | 0 <= i < |front| :: !Closes(front[i])
    ensures Scan(lines + (front + [last])) == Split(Scan(lines).chunks + [front + [CLOSE]], [])
  {
    ScanOpenLines(lines, front);
    ScanSnoc(lines + front, last);
    Assoc(lines, front, [last]);
    assert Scan(lines).current + front == front;
    UncommaOf(front, last);
  }

  lemma UncommaOf(front: seq<Line>, last: Line)
    requires Closes(last)
    ensures (front + [last])[|front + [last]| - 1] == last
    ensures Uncomma(front + [last]) == front + [CLOSE]
  {
    assert (front + [last])[..|front|] == front;
  }

  lemma ScanChunk(lines: seq<Line>, chunk: Chunk)
    requires Scan(lines).current == [] && IsChunk(chunk)
    ensures Scan(lines + chunk) == Split(Scan(lines).chunks + [chunk], [])
    ensures Scan(lines + WithComma(chunk)) == Split(Scan(lines).chunks + [chunk], [])
  {
    var n := |chunk| - 1;
    assert chunk == chunk[..n] + [CLOSE];
    ScanElement(lines, chunk[..n], CLOSE);
    ScanElement(lines, chunk[..n], CLOSE + ",");
  }

  predicate AllChunks(chunks: seq<Chunk>)
  {
    forall i | 0 <= i < |chunks| :: IsChunk(chunks[i])
  }

  lemma {:induction false} ScanCommaed(chunks: seq<Chunk>)
    requires AllChunks(chunks)
    ensures Scan(Commaed(chunks)) == Split(chunks, [])
  {
    if chunks != [] {
      var n := |chunks| - 1;
      ScanCommaed(chunks[..n]);
      ScanChunk(Commaed(chunks[..n]), chunks[n]);
      LastSplit(chunks);
    }
  }

  /** Splitting the printed elements gives back exactly those elements, and nothing is left over. */
  lemma ScanBody(chunks: seq<Chunk>)
    requires AllChunks(chunks)
    ensures Scan(Body(chunks)).chunks == chunks && Blank(Scan(Body(chunks)).current)
  {
    if chunks == [] {
      assert [""][..0] == [];
    } else {
      var front, last := chunks[..|chunks| - 1], chunks[|chunks| - 1];
      ScanCommaed(front);
      ScanChunk(Commaed(front), last);
      assert Body(chunks) == Commaed(front) + last;
      LastSplit(chunks);
    }
  }

  // ----- keeping everything -----

  /** The layout that prints as itself: only the last line is a closing line without a comma. */
  predicate Tidy(lines: seq<Line>)
  {
    lines != [] && lines[|lines| - 1] == CLOSE && forall i | 0 <= i < |lines| - 1 :: lines[i] != CLOSE
  }

  lemma {:induction false} CommaedHasNoBareClose(chunks: seq<Chunk>)
    requires AllChunks(chunks)
    ensures forall i | 0 <= i < |Commaed(chunks)| :: Commaed(chunks)[i] != CLOSE
  {
    if chunks != [] {
      var n := |chunks| - 1;
      CommaedHasNoBareClose(chunks[..n]);
      var last := WithComma(chunks[n]);
      assert forall i | 0 <= i < |last| :: last[i] != CLOSE;
    }
  }

  lemma CommaedSnoc(chunks: seq<Chunk>, chunk: Chunk)
    requires AllChunks(chunks) && chunk != []
    ensures Commaed(chunks + [chunk]) == Commaed(chunks) + WithComma(chunk)
    ensures Body(chunks + [chunk]) == Commaed(chunks) + chunk
  {
    assert (chunks + [chunk])[..|chunks|] == chunks;
  }

  lemma {:induction false} ScanWithoutBareClose(lines: seq<Line>)
    requires forall i | 0 <= i < |lines| :: lines[i] != CLOSE
    ensures AllChunks(Scan(lines).chunks) && lines == Commaed(Scan(lines).chunks) + Scan(lines).current
  {
    ScanShape(lines);
    if lines != [] {
      var n := |lines| - 1;
      ScanWithoutBareClose(lines[..n]);
      assert Scan(lines) == ScanLine(Scan(lines[..n]), lines[n]);
      LineWithoutBareClose(Scan(lines[..n]), lines[n]);
      assert lines == lines[..n] + [lines[n]];
    }
  }

  lemma LineWithoutBareClose(s: Split, line: Line)
    requires line != CLOSE && AllChunks(s.chunks) && AllChunks(ScanLine(s, line).chunks)
    ensures Commaed(ScanLine(s, line).chunks) + ScanLine(s, line).current == Commaed(s.chunks) + s.current + [line]
  {
    if Closes(line) {
      var chunk := Uncomma(s.current + [line]);
      CommaedSnoc(s.chunks, chunk);
      assert WithComma(chunk) == s.current + [line];
    }
  }

  /** The elements of a stretch of lines print as those lines exactly when it is tidy, or one empty line. */
  lemma PrintsAsItself(lines: seq<Line>)
    ensures AllChunks(Scan(lines).chunks)
    ensures Body(Scan(lines).chunks) == lines <==> Tidy(lines) || lines == [""]
    ensures Tidy(lines) ==> Scan(lines).chunks != [] && Scan(lines).current == []
  {
    ScanShape(lines);
    if Tidy(lines) {
      TidyPrints(lines);
    } else if lines == [""] {
      assert lines[..0] == [];
    } else {
      UntidyDiffers(lines, Scan(lines).chunks);
    }
  }

  lemma TidyPrints(lines: seq<Line>)
    requires Tidy(lines)
    ensures AllChunks(Scan(lines).chunks) && Body(Scan(lines).chunks) == lines
    ensures Scan(lines).chunks != [] && Scan(lines).current == []
  {
    var n := |lines| - 1;
    ScanShape(lines);
    ScanWithoutBareClose(lines[..n]);
    assert Scan(lines) == ScanLine(Scan(lines[..n]), CLOSE);
    ClosedPrints(Scan(lines[..n]));
    assert lines == lines[..n] + [CLOSE];
  }

  lemma ClosedPrints(s: Split)
    requires AllChunks(s.chunks) && AllChunks(ScanLine(s, CLOSE).chunks)
    ensures Body(ScanLine(s, CLOSE).chunks) == Commaed(s.chunks) + s.current + [CLOSE]
  {
    UncommaOf(s.current, CLOSE);
    CommaedSnoc(s.chunks, s.current + [CLOSE]);
    Assoc(Commaed(s.chunks), s.current, [CLOSE]);
  }

  lemma UntidyDiffers(lines: seq<Line>, chunks: seq<Chunk>)
    requires AllChunks(chunks) && !Tidy(lines) && lines != [""]
    ensures Body(chunks) != lines
  {
    if chunks != [] {
      var n := |chunks| - 1;
      CommaedHasNoBareClose(chunks[..n]);
      ChunkEndsTidily(Commaed(chunks[..n]), chunks[n]);
    }
  }

  lemma ChunkEndsTidily(front: seq<Line>, chunk: Chunk)
    requires IsChunk(chunk) && forall i | 0 <= i < |front| :: front[i] != CLOSE
    ensures Tidy(front + chunk)
  {
    var n := |chunk| - 1;
    forall i | 0 <= i < |front + chunk| - 1 ensures (front + chunk)[i] != CLOSE {
      if i >= |front| { assert !Closes(chunk[i - |front|]); }
    }
    assert (front + chunk)[|front| + n] == chunk[n];
  }

  lemma {:induction false} KeepAllKeepsAll<T>(chunks: seq<Chunk>, reader: Reader<T>)
    requires AllRead(chunks, reader)
    ensures Kept(chunks, reader, _ => true) == chunks
  {
    if chunks != [] {
      var n := |chunks| - 1;
      KeepAllKeepsAll(chunks[..n], reader);
      assert chunks == chunks[..n] + [chunks[n]];
    }
  }

  /** The lines between the opening and the end, none for an array written on two adjoining lines. */
  function Between(text: Text, key: string): seq<Line>
    requires HasArray(text, key)
  {
    text[FindOpen(text, key, 0) + 1..FindEnd(text, |text|)]
  }

  lemma {:induction false} SameMiddle(a: Text, b: seq<Line>, c: seq<Line>, d: Text)
    ensures a + b + d == a + c + d <==> b == c
  {
    if a + b + d == a + c + d {
      assert |b| == |c|;
      assert b == (a + b + d)[|a|..|a| + |b|];
      assert c == (a + c + d)[|a|..|a| + |c|];
    }
  }

  /** The elements of a text's array, as the patcher splits them. */
  function Elements(text: Text, key: string): seq<Chunk>
    requires HasArray(text, key)
  {
    Scan(Inside(text, FindOpen(text, key, 0), FindEnd(text, |text|))).chunks
  }

  /** What the patch writes, in terms of the array's elements. */
  function Written(text: Text, key: string, chunks: seq<Chunk>): Text
    requires HasArray(text, key) && AllChunks(chunks)
  {
    Replaced(text, FindOpen(text, key, 0), FindEnd(text, |text|), chunks)
  }

  lemma PatchWrites<T>(text: Text, key: string, reader: Reader<T>, keep: T -> bool, extra: seq<Chunk>)
    requires AllChunks(extra) && Patch(text, key, reader, keep, extra).Patched?
    ensures HasArray(text, key) && AllRead(Elements(text, key), reader) && AllChunks(Elements(text, key))
    ensures AllChunks(Kept(Elements(text, key), reader, keep) + extra)
    ensures Patch(text, key, reader, keep, extra).text
            == Written(text, key, Kept(Elements(text, key), reader, keep) + extra)
  {
    ScanShape(Inside(text, FindOpen(text, key, 0), FindEnd(text, |text|)));
  }

  lemma BodyNotEmpty(chunks: seq<Chunk>)
    requires AllChunks(chunks)
    ensures |Body(chunks)| >= 1
  {
    if chunks != [] { assert IsChunk(chunks[|chunks| - 1]); }
  }

  lemma WritesItself(text: Text, key: string, chunks: seq<Chunk>)
    requires HasArray(text, key) && AllChunks(chunks)
    ensures Written(text, key, chunks) == text <==> Body(chunks) == Between(text, key)
  {
    var open, end := FindOpen(text, key, 0), FindEnd(text, |text|);
    SameMiddle(text[..open + 1], Body(chunks), Between(text, key), text[end..]);
    ThreeParts(text, open + 1, end);
  }

  lemma ThreeParts(text: Text, i: nat, j: nat)
    requires i <= j <= |text|
    ensures text == text[..i] + text[i..j] + text[j..]
  {
  }

  /**
    A patch that keeps everything and adds nothing gives the text back exactly when the array's lines are
    tidy or one empty line; an array with nothing between its lines is not, and gains an empty line.
  */
  lemma KeepAllIsIdentity<T>(text: Text, key: string, reader: Reader<T>)
    requires Patch(text, key, reader, _ => true, []).Patched?
    ensures Patch(text, key, reader, _ => true, []).text == text
            <==> Tidy(Between(text, key)) || Between(text, key) == [""]
  {
    var chunks := Elements(text, key);
    PatchWrites(text, key, reader, _ => true, []);
    KeepAllKeepsAll(chunks, reader);
    assert chunks + [] == chunks;
    WritesItself(text, key, chunks);
    if Between(text, key) == [] {
      BodyNotEmpty(chunks);
    } else {
      PrintsAsItself(Between(text, key));
    }
  }

  // ----- which error, read off the text -----

  /** The lines from `a` to `b` are one element: the last of them closes, none before it does. */
  predicate ElementAt(lines: seq<Line>, a: nat, b: nat)
  {
    && a <= b < |lines| && Closes(lines[b])
    && (a == 0 || Closes(lines[a - 1])) && forall j | a <= j < b :: !Closes(lines[j])
  }

  predicate OnlySpace(line: Line)
  {
    forall j | 0 <= j < |line| :: IsSpace(line[j])
  }

  /** A line with something on it, behind the last line that closes. */
  predicate LeftOver(lines: seq<Line>, i: nat)
  {
    && i < |lines| && !OnlySpace(lines[i])
    && forall j | i <= j < |lines| :: !Closes(lines[j])
  }

  /** The first line behind the last one that closes. */
  predicate Behind(lines: seq<Line>, k: nat)
  {
    k <= |lines| && (k == 0 || Closes(lines[k - 1])) && forall j | k <= j < |lines| :: !Closes(lines[j])
  }

  lemma BehindNext(lines: seq<Line>, k: nat)
    requires lines != [] && Behind(lines[..|lines| - 1], k)
    ensures Behind(lines, if Closes(lines[|lines| - 1]) then |lines| else k)
    ensures lines[..|lines| - 1][k..] + [lines[|lines| - 1]] == lines[k..]
  {
  }

  /** What is left after the elements is what stands behind the last line that closes. */
  lemma {:induction false} CurrentFrom(lines: seq<Line>) returns (k: nat)
    ensures Behind(lines, k) && Scan(lines).current == lines[k..]
  {
    if lines == [] {
      k := 0;
    } else {
      var n := |lines| - 1;
      k := CurrentFrom(lines[..n]);
      BehindNext(lines, k);
      if Closes(lines[n]) { k := |lines|; }
    }
  }

  lemma BlankBehind(lines: seq<Line>, k: nat)
    requires k <= |lines|
    ensures Blank(lines[k..]) <==> forall i: nat | k <= i < |lines| :: OnlySpace(lines[i])
  {
    if Blank(lines[k..]) {
      forall i: nat | k <= i < |lines| ensures OnlySpace(lines[i]) { assert lines[k..][i - k] == lines[i]; }
    }
  }

  lemma LeftOverExactly(lines: seq<Line>)
    ensures Blank(Scan(lines).current) <==> forall i: nat :: !LeftOver(lines, i)
  {
    var k := CurrentFrom(lines);
    BlankBehind(lines, k);
    forall i: nat ensures LeftOver(lines, i) <==> k <= i < |lines| && !OnlySpace(lines[i]) { LeftOverBehind(lines, k, i); }
  }

  lemma LeftOverBehind(lines: seq<Line>, k: nat, i: nat)
    requires Behind(lines, k)
    ensures LeftOver(lines, i) <==> k <= i < |lines| && !OnlySpace(lines[i])
  {
    if k > 0 { assert Closes(lines[k - 1]); }
  }

  ghost predicate IsElement(lines: seq<Line>, chunk: Chunk)
  {
    exists a: nat, b: nat :: ElementAt(lines, a, b) && chunk == lines[a..b] + [CLOSE]
  }

  lemma {:induction false} ElementsExactly(lines: seq<Line>, chunk: Chunk)
    ensures chunk in Scan(lines).chunks <==> IsElement(lines, chunk)
  {
    if lines != [] {
      var n := |lines| - 1;
      ElementsExactly(lines[..n], chunk);
      var k := CurrentFrom(lines[..n]);
      LastElement(lines, chunk, k);
    }
  }

  /** An element that ends before the last line. */
  ghost predicate EarlierElement(lines: seq<Line>, chunk: Chunk)
  {
    exists a: nat, b: nat :: b < |lines| - 1 && ElementAt(lines, a, b) && chunk == lines[a..b] + [CLOSE]
  }

  lemma FrontElement(lines: seq<Line>, a: nat, b: nat)
    requires lines != [] && b < |lines| - 1
    ensures ElementAt(lines[..|lines| - 1], a, b) <==> ElementAt(lines, a, b)
    ensures a <= b ==> lines[..|lines| - 1][a..b] == lines[a..b]
  {
  }

  lemma FrontElements(lines: seq<Line>, chunk: Chunk)
    requires lines != []
    ensures IsElement(lines[..|lines| - 1], chunk) <==> EarlierElement(lines, chunk)
  {
    var front := lines[..|lines| - 1];
    if a: nat, b: nat :| ElementAt(front, a, b) && chunk == front[a..b] + [CLOSE] { FrontElement(lines, a, b); }
    if a: nat, b: nat :| b < |lines| - 1 && ElementAt(lines, a, b) && chunk == lines[a..b] + [CLOSE] {
      FrontElement(lines, a, b);
    }
  }

  lemma ElementsSplit(lines: seq<Line>, chunk: Chunk, k: nat)
    requires lines != [] && Behind(lines[..|lines| - 1], k)
    ensures IsElement(lines, chunk) <==>
            EarlierElement(lines, chunk) || (Closes(lines[|lines| - 1]) && chunk == lines[k..|lines| - 1] + [CLOSE])
  {
    var n := |lines| - 1;
    if Closes(lines[n]) { assert ElementAt(lines, k, n); }
    if a: nat, b: nat :| ElementAt(lines, a, b) && chunk == lines[a..b] + [CLOSE] {
      if b == n { assert a == k; }
    }
  }

  lemma LastElement(lines: seq<Line>, chunk: Chunk, k: nat)
    requires lines != [] && Behind(lines[..|lines| - 1], k)
    requires Scan(lines[..|lines| - 1]).current == lines[..|lines| - 1][k..]
    requires chunk in Scan(lines[..|lines| - 1]).chunks <==> IsElement(lines[..|lines| - 1], chunk)
    ensures chunk in Scan(lines).chunks <==> IsElement(lines, chunk)
  {
    var n := |lines| - 1;
    FrontElements(lines, chunk);
    ElementsSplit(lines, chunk, k);
    assert lines[..n][k..] == lines[k..n];
    if Closes(lines[n]) { UncommaOf(lines[k..n], lines[n]); }
  }

  /**
    Each outcome of the patch, read off the text: no array; something behind the last element; an element that
    cannot be read; else the text is given back if the whole of it can be read.
  */
  lemma OutcomeExactly<T>(text: Text, key: string, reader: Reader<T>, keep: T -> bool, extra: seq<Chunk>)
    requires AllChunks(extra)
    ensures var out := Patch(text, key, reader, keep, extra);
      && (out.NoArray? <==> forall open: nat, end: nat :: !ArrayAt(text, key, open, end))
      && (forall open: nat, end: nat | ArrayAt(text, key, open, end) ::
           var lines := Inside(text, open, end);
           && (out.Unrecognised? <==> exists i: nat :: LeftOver(lines, i))
           && (out.BadElement? <==>
                && !out.Unrecognised?
                && exists chunk :: IsElement(lines, chunk) && reader.element(chunk).None?))
      && (out.Patched? ==> reader.whole(out.text))
      && (out.BadResult? ==>
           && HasArray(text, key) && AllRead(Elements(text, key), reader)
           && AllChunks(Kept(Elements(text, key), reader, keep) + extra)
           && !reader.whole(Written(text, key, Kept(Elements(text, key), reader, keep) + extra)))
  {
    if HasArray(text, key) { FoundArray(text, key); }
    forall open: nat, end: nat | ArrayAt(text, key, open, end)
      ensures HasArray(text, key) && FindOpen(text, key, 0) == open && FindEnd(text, |text|) == end
    {
      ArrayIsFound(text, key, open, end);
    }
    if HasArray(text, key) {
      var lines := Inside(text, FindOpen(text, key, 0), FindEnd(text, |text|));
      LeftOverExactly(lines);
      ScanShape(lines);
      UnreadExactly(lines, reader);
    }
  }

  lemma UnreadExactly<T>(lines: seq<Line>, reader: Reader<T>)
    ensures AllRead(Scan(lines).chunks, reader) <==> forall chunk | IsElement(lines, chunk) :: reader.element(chunk).Some?
  {
    var chunks := Scan(lines).chunks;
    forall chunk ensures chunk in chunks <==> IsElement(lines, chunk) { ElementsExactly(lines, chunk); }
    if !AllRead(chunks, reader) {
      var i :| 0 <= i < |chunks| && reader.element(chunks[i]).None?;
      assert chunks[i] in chunks;
    }
  }

  // ----- what the output holds -----

  lemma {:induction false} BodyHasNoEnd(text: Text, open: nat, end: nat, chunks: seq<Chunk>, key: string)
    requires ArrayAt(text, key, open, end) && AllChunks(chunks)
    ensures ArrayAt(Replaced(text, open, end, chunks), key, open, open + 1 + |Body(chunks)|)
  {
    var out := Replaced(text, open, end, chunks);
    var last := open + 1 + |Body(chunks)|;
    assert |Body(chunks)| >= 1 by { BodyNotEmpty(chunks); }
    assert forall j: nat | j <= open :: out[j] == text[j];
    assert forall j: nat | j < open :: OpensAt(out, key, j) ==> OpensAt(text, key, j);
    assert out[last] == text[end];
    forall j: nat | last < j < |out| ensures !EndsAt(out, j) {
      assert out[j] == text[end..][j - last] == text[j - last + end];
      assert !EndsAt(text, j - last + end);
    }
  }

  /** Written elements are found again, and nothing else is. */
  lemma ElementsOfWritten(text: Text, key: string, chunks: seq<Chunk>)
    requires HasArray(text, key) && AllChunks(chunks)
    ensures var out := Written(text, key, chunks);
      && HasArray(out, key)
      && FindOpen(out, key, 0) == FindOpen(text, key, 0)
      && FindEnd(out, |out|) == FindOpen(text, key, 0) + 1 + |Body(chunks)|
      && Inside(out, FindOpen(out, key, 0), FindEnd(out, |out|)) == Body(chunks)
      && Elements(out, key) == chunks
  {
    var open, end := FindOpen(text, key, 0), FindEnd(text, |text|);
    var out := Written(text, key, chunks);
    FoundArray(text, key);
    BodyHasNoEnd(text, open, end, chunks, key);
    ArrayIsFound(out, key, open, open + 1 + |Body(chunks)|);
    BodyNotEmpty(chunks);
    MiddleOf(text[..open + 1], Body(chunks), text[end..]);
    ScanBody(chunks);
  }

  lemma MiddleOf(a: Text, b: seq<Line>, c: Text)
    ensures (a + b + c)[..|a|] == a && (a + b + c)[|a|..|a| + |b|] == b && (a + b + c)[|a| + |b|..] == c
  {
  }

  /**
    The output's elements are the kept old ones, line for line, followed by the extras; everything before
    and after the array is untouched.
  */
  lemma OutputHoldsKeptAndExtra<T>(text: Text, key: string, reader: Reader<T>, keep: T -> bool, extra: seq<Chunk>)
    requires AllChunks(extra)
    requires Patch(text, key, reader, keep, extra).Patched?
    ensures var out := Patch(text, key, reader, keep, extra).text;
      && HasArray(out, key)
      && Elements(out, key) == Kept(Elements(text, key), reader, keep) + extra
      && out[..FindOpen(out, key, 0) + 1] == text[..FindOpen(text, key, 0) + 1]
      && out[FindEnd(out, |out|)..] == text[FindEnd(text, |text|)..]
  {
    PatchWrites(text, key, reader, keep, extra);
    var chunks := Kept(Elements(text, key), reader, keep) + extra;
    ElementsOfWritten(text, key, chunks);
    SurroundingsOfWritten(text, key, chunks);
  }

  lemma SurroundingsOfWritten(text: Text, key: string, chunks: seq<Chunk>)
    requires HasArray(text, key) && AllChunks(chunks)
    ensures var out, open := Written(text, key, chunks), FindOpen(text, key, 0);
      && open + 1 + |Body(chunks)| <= |out|
      && out[..open + 1] == text[..open + 1]
      && out[open + 1 + |Body(chunks)|..] == text[FindEnd(text, |text|)..]
  {
    MiddleOf(text[..FindOpen(text, key, 0) + 1], Body(chunks), text[FindEnd(text, |text|)..]);
  }

  // ----- dropping one's own and adding them again -----

  lemma {:induction false} KeptConcat<T>(a: seq<Chunk>, b: seq<Chunk>, reader: Reader<T>, keep: T -> bool)
    requires AllRead(a + b, reader)
    ensures AllRead(a, reader) && AllRead(b, reader)
    ensures Kept(a + b, reader, keep) == Kept(a, reader, keep) + Kept(b, reader, keep)
  {
    assert forall i | 0 <= i < |a| :: (a + b)[i] == a[i];
    assert forall i | 0 <= i < |b| :: (a + b)[|a| + i] == b[i];
    if b == [] {
      assert a + b == a;
    } else {
      var n := |b| - 1;
      assert (a + b)[..|a + b| - 1] == a + b[..n];
      KeptConcat(a, b[..n], reader, keep);
    }
  }

  lemma {:induction false} KeptAgain<T>(chunks: seq<Chunk>, reader: Reader<T>, keep: T -> bool)
    requires AllRead(chunks, reader)
    ensures AllRead(Kept(chunks, reader, keep), reader)
    ensures Kept(Kept(chunks, reader, keep), reader, keep) == Kept(chunks, reader, keep)
  {
    if chunks != [] {
      var n := |chunks| - 1;
      var rest := Kept(chunks[..n], reader, keep);
      KeptAgain(chunks[..n], reader, keep);
      if keep(reader.element(chunks[n]).value) {
        assert (rest + [chunks[n]])[..|rest|] == rest;
        assert Kept(chunks, reader, keep) == rest + [chunks[n]];
      } else {
        assert Kept(chunks, reader, keep) == rest;
      }
    }
  }

  lemma {:induction false} KeptNone<T>(chunks: seq<Chunk>, reader: Reader<T>, keep: T -> bool)
    requires AllRead(chunks, reader) && forall i | 0 <= i < |chunks| :: !keep(reader.element(chunks[i]).value)
    ensures Kept(chunks, reader, keep) == []
  {
    if chunks != [] { KeptNone(chunks[..|chunks| - 1], reader, keep); }
  }

  /**
    The catalog's use: the elements it owns are dropped and written again at the end. Doing it a second time
    changes nothing.
  */
  lemma RewritingIsIdempotent<T>(text: Text, key: string, reader: Reader<T>, keep: T -> bool, extra: seq<Chunk>)
    requires AllChunks(extra) && AllRead(extra, reader)
    requires forall i | 0 <= i < |extra| :: !keep(reader.element(extra[i]).value)
    requires Patch(text, key, reader, keep, extra).Patched?
    ensures var out := Patch(text, key, reader, keep, extra);
      Patch(out.text, key, reader, keep, extra) == out
  {
    var before := Elements(text, key);
    PatchWrites(text, key, reader, keep, extra);
    var kept := Kept(before, reader, keep);
    var chunks, out := kept + extra, Written(text, key, kept + extra);
    KeptAgain(before, reader, keep);
    OwnRewritten(kept, extra, reader, keep);
    ElementsOfWritten(text, key, chunks);
    ScanBody(chunks);
    WritesItself(out, key, chunks);
    MiddleOf(text[..FindOpen(text, key, 0) + 1], Body(chunks), text[FindEnd(text, |text|)..]);
    BodyNotEmpty(chunks);
  }

  lemma OwnRewritten<T>(kept: seq<Chunk>, extra: seq<Chunk>, reader: Reader<T>, keep: T -> bool)
    requires AllRead(kept, reader) && AllRead(extra, reader) && Kept(kept, reader, keep) == kept
    requires forall i | 0 <= i < |extra| :: !keep(reader.element(extra[i]).value)
    ensures AllRead(kept + extra, reader) && Kept(kept + extra, reader, keep) == kept
  {
    KeptConcat(kept, extra, reader, keep);
    KeptNone(extra, reader, keep);
  }

  // ----- the append-only form -----

  /** Adds behind the line before the array's end; adding nothing returns the text unread. */
  function Append<T>(text: Text, key: string, reader: Reader<T>, extra: seq<Chunk>): Outcome
    requires forall i | 0 <= i < |extra| :: extra[i] != []
  {
    if extra == [] then Patched(text)
    else if !HasArray(text, key) then NoArray
    else Checked(Appended(text, key, extra), reader)
  }

  function Appended(text: Text, key: string, extra: seq<Chunk>): Text
    requires HasArray(text, key) && extra != [] && forall i | 0 <= i < |extra| :: extra[i] != []
  {
    var end := FindEnd(text, |text|);
    WithComma(text[..end]) + Body(extra) + text[end..]
  }

  lemma {:induction false} CommaedConcat(a: seq<Chunk>, b: seq<Chunk>)
    requires AllChunks(a) && AllChunks(b)
    ensures Commaed(a + b) == Commaed(a) + Commaed(b)
  {
    if b == [] {
      assert a + b == a;
    } else {
      var front, last := b[..|b| - 1], b[|b| - 1];
      assert b == front + [last];
      CommaedConcat(a, front);
      CommaedLast(a, front, last);
    }
  }

  lemma AllChunksConcat(a: seq<Chunk>, b: seq<Chunk>)
    requires AllChunks(a) && AllChunks(b)
    ensures AllChunks(a + b)
  {
  }

  lemma CommaedLast(a: seq<Chunk>, front: seq<Chunk>, last: Chunk)
    requires AllChunks(a) && AllChunks(front) && IsChunk(last) && Commaed(a + front) == Commaed(a) + Commaed(front)
    ensures AllChunks(a + (front + [last])) && AllChunks(front + [last])
    ensures Commaed(a + (front + [last])) == Commaed(a) + Commaed(front + [last])
  {
    AllChunksConcat(a, front);
    AllChunksConcat(front, [last]);
    AllChunksConcat(a, front + [last]);
    CommaedSnoc(a + front, last);
    CommaedSnoc(front, last);
    Assoc(a, front, [last]);
    Assoc(Commaed(a), Commaed(front), WithComma(last));
  }

  /** Elements followed by more: the first part is printed with one more comma. */
  lemma BodyConcat(a: seq<Chunk>, b: seq<Chunk>)
    requires AllChunks(a) && AllChunks(b) && b != []
    ensures Body(a + b) == Commaed(a) + Body(b)
    ensures a != [] ==> Body(a) != [] && Commaed(a) == WithComma(Body(a))
  {
    var n := |b| - 1;
    CommaedConcat(a, b[..n]);
    CommaedSnoc(a + b[..n], b[n]);
    Assoc(a, b[..n], [b[n]]);
    assert b == b[..n] + [b[n]];
    Assoc(Commaed(a), Commaed(b[..n]), b[n]);
    if a != [] { CommaedIsBodyWithComma(a); }
  }

  lemma CommaedIsBodyWithComma(a: seq<Chunk>)
    requires AllChunks(a) && a != []
    ensures Body(a) != [] && Commaed(a) == WithComma(Body(a))
  {
    var m := |a| - 1;
    assert IsChunk(a[m]);
    WithCommaBehind(Commaed(a[..m]), a[m]);
  }

  lemma WithCommaBehind(front: seq<Line>, chunk: seq<Line>)
    requires chunk != []
    ensures front + chunk != [] && WithComma(front + chunk) == front + WithComma(chunk)
  {
    var both, n := front + chunk, |chunk| - 1;
    assert both[..|both| - 1] == front + chunk[..n];
    Assoc(front, chunk[..n], [chunk[n] + ","]);
  }

  lemma SameWithComma(a: seq<Line>, b: seq<Line>)
    requires a != [] && b != []
    ensures WithComma(a) == WithComma(b) <==> a == b
  {
    if WithComma(a) == WithComma(b) {
      var n := |a| - 1;
      assert |a| == |b|;
      assert a[..n] == WithComma(a)[..n] == WithComma(b)[..n] == b[..n];
      assert a[n] + "," == WithComma(a)[n] == b[n] + ",";
      assert a[n] == (a[n] + ",")[..|a[n]|] == (b[n] + ",")[..|b[n]|] == b[n];
      assert a == a[..n] + [a[n]] && b == b[..n] + [b[n]];
    }
  }

  /** On lines that are not tidy the two forms put different lines into the array. */
  lemma DifferentMiddle(between: seq<Line>, chunks: seq<Chunk>, extra: seq<Chunk>)
    requires AllChunks(chunks) && AllChunks(extra) && extra != [] && between != []
    ensures WithComma(between) + Body(extra) == Body(chunks + extra) <==> chunks != [] && Body(chunks) == between
  {
    BodyConcat(chunks, extra);
    if WithComma(between) + Body(extra) == Body(chunks + extra) {
      assert |WithComma(between)| == |Commaed(chunks)|;
      assert WithComma(between) == (WithComma(between) + Body(extra))[..|WithComma(between)|];
      assert Commaed(chunks) == (Commaed(chunks) + Body(extra))[..|Commaed(chunks)|];
    }
    if chunks != [] {
      BodyNotEmpty(chunks);
      SameWithComma(Body(chunks), between);
    }
  }

  /** Printing the elements of some lines gives the lines back, and there is one, exactly when they are tidy. */
  lemma TidyExactly(between: seq<Line>)
    ensures AllChunks(Scan(between).chunks)
    ensures (Scan(between).chunks != [] && Body(Scan(between).chunks) == between) <==> Tidy(between)
  {
    PrintsAsItself(between);
    if between == [""] { assert between[..0] == []; }
  }

  /**
    Appending to an array with nothing between its lines puts the comma behind the opening bracket. A reader
    that refuses such a line refuses the text, so the form throws where the patch writes the extras.
  */
  lemma AppendToEmpty<T>(text: Text, key: string, reader: Reader<T>, keep: T -> bool, extra: seq<Chunk>)
    requires AllChunks(extra) && extra != [] && HasArray(text, key) && Between(text, key) == []
    requires forall out: Text | OpenLine(key) + "," in out :: !reader.whole(out)
    ensures Append(text, key, reader, extra) == BadResult
    ensures Patch(text, key, reader, keep, extra) == Checked(Written(text, key, extra), reader)
  {
    AppendedOpen(text, key, extra);
    ScanEmptyLine();
    assert [] + extra == extra;
  }

  lemma ScanEmptyLine()
    ensures Scan([""]) == Split([], [""]) && Blank([""])
  {
    assert [""][..0] == [] && [] + [""] == [""];
  }

  lemma EmptyDiffers(text: Text, key: string, extra: seq<Chunk>, chunks: seq<Chunk>)
    requires AllChunks(extra) && extra != [] && HasArray(text, key) && AllChunks(chunks) && Between(text, key) == []
    ensures Appended(text, key, extra) != Written(text, key, chunks)
  {
    AppendedOpen(text, key, extra);
    WrittenOpen(text, key, chunks);
  }

  lemma AppendedOpen(text: Text, key: string, extra: seq<Chunk>)
    requires AllChunks(extra) && extra != [] && HasArray(text, key) && Between(text, key) == []
    ensures var open := FindOpen(text, key, 0);
      open < |Appended(text, key, extra)| && Appended(text, key, extra)[open] == OpenLine(key) + ","
  {
    var open, end := FindOpen(text, key, 0), FindEnd(text, |text|);
    assert end == open + 1 && text[..end][open] == OpenLine(key);
    var front := WithComma(text[..end]);
    assert |front| == end && front[open] == OpenLine(key) + ",";
  }

  lemma WrittenOpen(text: Text, key: string, chunks: seq<Chunk>)
    requires HasArray(text, key) && AllChunks(chunks)
    ensures var open := FindOpen(text, key, 0);
      open < |Written(text, key, chunks)| && Written(text, key, chunks)[open] == OpenLine(key)
  {
  }

  /** The text with other lines in the array. */
  function Around(text: Text, key: string, lines: seq<Line>): Text
    requires HasArray(text, key)
  {
    text[..FindOpen(text, key, 0) + 1] + lines + text[FindEnd(text, |text|)..]
  }

  lemma AroundInjective(text: Text, key: string, a: seq<Line>, b: seq<Line>)
    requires HasArray(text, key)
    ensures Around(text, key, a) == Around(text, key, b) <==> a == b
  {
    SameMiddle(text[..FindOpen(text, key, 0) + 1], a, b, text[FindEnd(text, |text|)..]);
  }

  lemma AppendToLines(text: Text, key: string, extra: seq<Chunk>, chunks: seq<Chunk>)
    requires AllChunks(extra) && extra != [] && HasArray(text, key) && AllChunks(chunks) && Between(text, key) != []
    ensures AllChunks(chunks + extra)
    ensures Appended(text, key, extra) == Written(text, key, chunks + extra) <==>
            WithComma(Between(text, key)) + Body(extra) == Body(chunks + extra)
  {
    AllChunksConcat(chunks, extra);
    AppendedParts(text, key, extra);
    WrittenParts(text, key, chunks + extra);
    AroundInjective(text, key, WithComma(Between(text, key)) + Body(extra), Body(chunks + extra));
  }

  lemma WrittenParts(text: Text, key: string, chunks: seq<Chunk>)
    requires HasArray(text, key) && AllChunks(chunks)
    ensures Written(text, key, chunks) == Around(text, key, Body(chunks))
  {
  }

  /**
    With something to add, the append-only form and the patch that keeps everything write the same text
    exactly when the array's lines are tidy; an empty array never is.
  */
  lemma AppendWritesTheSame(text: Text, key: string, extra: seq<Chunk>)
    requires AllChunks(extra) && extra != [] && HasArray(text, key) && AllChunks(Elements(text, key))
    ensures Appended(text, key, extra) == Written(text, key, Elements(text, key) + extra) <==> Tidy(Between(text, key))
  {
    var between, chunks := Between(text, key), Elements(text, key);
    if between == [] {
      EmptyDiffers(text, key, extra, chunks + extra);
    } else {
      AppendToLines(text, key, extra, chunks);
      DifferentMiddle(between, chunks, extra);
      TidyExactly(between);
    }
  }

  lemma AppendedParts(text: Text, key: string, extra: seq<Chunk>)
    requires AllChunks(extra) && extra != [] && HasArray(text, key) && Between(text, key) != []
    ensures Appended(text, key, extra) == Around(text, key, WithComma(Between(text, key)) + Body(extra))
  {
    var open, end := FindOpen(text, key, 0), FindEnd(text, |text|);
    assert text[..end] == text[..open + 1] + Between(text, key);
    WithCommaBehind(text[..open + 1], Between(text, key));
    Assoc(text[..open + 1], WithComma(Between(text, key)), Body(extra));
  }

  /** Whenever the patch succeeds on a tidy array, the append-only form gives the same result. */
  lemma AppendIsKeepAllPatch<T>(text: Text, key: string, reader: Reader<T>, extra: seq<Chunk>)
    requires AllChunks(extra) && Patch(text, key, reader, _ => true, extra).Patched? && Tidy(Between(text, key))
    ensures Append(text, key, reader, extra) == Patch(text, key, reader, _ => true, extra)
  {
    PatchWrites(text, key, reader, _ => true, extra);
    KeepAllKeepsAll(Elements(text, key), reader);
    if extra == [] {
      KeepAllIsIdentity(text, key, reader);
    } else {
      AppendWritesTheSame(text, key, extra);
    }
  }
}

/** The line/column painter of go-cover-cli.go: the blocks of a cover profile
    become begin and end markers grouped by line, the markers of a line are
    sorted by column, and each line is printed with a colour code spliced in
    at every marker. A line is a sequence of runes (characters). */
module CoverCli {
  import opened Tokens

  /** One block of a cover profile (golang.org/x/tools/cover.ProfileBlock). */
  datatype ProfileBlock = ProfileBlock(startLine: int, startCol: int, endLine: int, endCol: int,
                                       numStmt: int, count: int)

  /** Marker: a column where a block begins or ends. An end marker keeps the
      zero count Go gives a field left out of a composite literal. */
  datatype Marker = Marker(col: int, isBegin: bool, count: int)

  // ---------------------------------------------------------------------
  // MarkerList ordering
  // ---------------------------------------------------------------------

  /** MarkerList.Less: ordered by column alone. */
  predicate Less(x: Marker, y: Marker)
  {
    x.col < y.col
  }

  /** What sort.Sort promises: no later marker is Less than an earlier one.
      Markers on the same column may come in any order. */
  predicate SortedByCol(ms: seq<Marker>)
  {
    forall i, j :: 0 <= i < j < |ms| ==> !Less(ms[j], ms[i])
  }

  /** ms is one of the orders sort.Sort may leave the markers of line in. */
  predicate IsSortingOf(ms: seq<Marker>, markers: seq<Marker>)
  {
    SortedByCol(ms) && multiset(ms) == multiset(markers)
  }

  /** sort.Sort(lineBlocks) over MarkerList's Len, Swap and Less, as an
      insertion sort by swaps of neighbours. */
  method SortMarkers(a: array<Marker>)
    modifies a
    ensures SortedByCol(a[..])
    ensures multiset(a[..]) == multiset(old(a[..]))
  {
    for i := 0 to a.Length
      invariant SortedByCol(a[..i])
      invariant multiset(a[..]) == multiset(old(a[..]))
    {
      InsertMarker(a, i);
    }
    assert a[..a.Length] == a[..];
  }

  /** Moves a[i] down past the markers of a[..i] with a larger column. */
  method InsertMarker(a: array<Marker>, i: int)
    requires 0 <= i < a.Length && SortedByCol(a[..i])
    modifies a
    ensures SortedByCol(a[..i + 1])
    ensures multiset(a[..]) == multiset(old(a[..]))
    ensures a[i + 1..] == old(a[i + 1..])
  {
    var j := i;
    while j > 0 && Less(a[j], a[j - 1])
      invariant 0 <= j <= i
      invariant a[i + 1..] == old(a[i + 1..])
      invariant forall p, q :: 0 <= p < q <= i && p != j && q != j ==> a[p].col <= a[q].col
      invariant forall q :: j < q <= i ==> a[j].col < a[q].col
      invariant multiset(a[..]) == multiset(old(a[..]))
    {
      a[j - 1], a[j] := a[j], a[j - 1];
      j := j - 1;
    }
  }

  // ---------------------------------------------------------------------
  // Grouping the blocks of a profile by line
  // ---------------------------------------------------------------------

  function BeginMarker(b: ProfileBlock): Marker
  {
    Marker(b.startCol, true, b.count)
  }

  function EndMarker(b: ProfileBlock): Marker
  {
    Marker(b.endCol, false, 0)
  }

  /** The markers one block appends to the list of line: its begin marker
      first, then its end marker. */
  function MarkersOn(b: ProfileBlock, line: int): seq<Marker>
  {
    (if b.startLine == line then [BeginMarker(b)] else [])
    + (if b.endLine == line then [EndMarker(b)] else [])
  }

  /** The list the grouping loop builds for line, in the order of the blocks. */
  function LineMarkers(blocks: seq<ProfileBlock>, line: int): seq<Marker>
  {
    if blocks == [] then []
    else LineMarkers(blocks[..|blocks| - 1], line) + MarkersOn(blocks[|blocks| - 1], line)
  }

  /** Block b puts marker m on line: b begins there and m is its begin
      marker, or b ends there and m is its end marker. */
  predicate Puts(b: ProfileBlock, line: int, m: Marker)
  {
    (b.startLine == line && m == BeginMarker(b)) || (b.endLine == line && m == EndMarker(b))
  }

  /** A marker is on the list of a line exactly when some block begins (for a
      begin marker) or ends (for an end marker) on that line. */
  lemma {:induction false} LineMarkersMembers(blocks: seq<ProfileBlock>, line: int, m: Marker)
    ensures m in LineMarkers(blocks, line) <==> exists j :: 0 <= j < |blocks| && Puts(blocks[j], line, m)
  {
    if blocks != [] {
      var init := blocks[..|blocks| - 1];
      var last := blocks[|blocks| - 1];
      LineMarkersMembers(init, line, m);
      assert LineMarkers(blocks, line) == LineMarkers(init, line) + MarkersOn(last, line);
      if m in LineMarkers(init, line) {
        var j :| 0 <= j < |init| && Puts(init[j], line, m);
        assert Puts(blocks[j], line, m);
      } else if m in MarkersOn(last, line) {
        assert Puts(blocks[|blocks| - 1], line, m);
      } else {
        forall j | 0 <= j < |blocks|
          ensures !Puts(blocks[j], line, m)
        {
          if j < |init| {
            assert blocks[j] == init[j];
          }
        }
      }
    }
  }

  /** A line has a list exactly when some block begins or ends on it. */
  lemma {:induction false} LineMarkersOccupied(blocks: seq<ProfileBlock>, line: int)
    ensures LineMarkers(blocks, line) != [] <==>
      exists j :: 0 <= j < |blocks| && (blocks[j].startLine == line || blocks[j].endLine == line)
  {
    if blocks != [] {
      var init := blocks[..|blocks| - 1];
      LineMarkersOccupied(init, line);
      assert forall j :: 0 <= j < |init| ==> init[j] == blocks[j];
    }
  }

  /** The list of a line holds one marker per block beginning on it and one
      per block ending on it. */
  lemma {:induction false} LineMarkersCount(blocks: seq<ProfileBlock>, line: int)
    ensures |LineMarkers(blocks, line)| ==
      |Starting(blocks, line)| + |Ending(blocks, line)|
  {
    if blocks != [] {
      LineMarkersCount(blocks[..|blocks| - 1], line);
    }
  }

  /** How many markers the lists of the given lines hold together. */
  function Total(blocks: seq<ProfileBlock>, lines: seq<int>): nat
  {
    if lines == [] then 0
    else Total(blocks, lines[..|lines| - 1]) + |LineMarkers(blocks, lines[|lines| - 1])|
  }

  /** How many markers one block puts on the given lines. */
  function OnLines(b: ProfileBlock, lines: seq<int>): nat
  {
    if lines == [] then 0
    else OnLines(b, lines[..|lines| - 1]) + |MarkersOn(b, lines[|lines| - 1])|
  }

  /** A block puts one marker on each occurrence of its start line and one on
      each occurrence of its end line. */
  lemma {:induction false} OnLinesCount(b: ProfileBlock, lines: seq<int>)
    ensures OnLines(b, lines) == multiset(lines)[b.startLine] + multiset(lines)[b.endLine]
  {
    if lines != [] {
      var init := lines[..|lines| - 1];
      OnLinesCount(b, init);
      assert lines == init + [lines[|lines| - 1]];
    }
  }

  /** Adding a block adds its markers to the lines. */
  lemma {:induction false} TotalSnoc(blocks: seq<ProfileBlock>, b: ProfileBlock, lines: seq<int>)
    ensures Total(blocks + [b], lines) == Total(blocks, lines) + OnLines(b, lines)
  {
    assert (blocks + [b])[..|blocks|] == blocks;
    if lines != [] {
      TotalSnoc(blocks, b, lines[..|lines| - 1]);
    }
  }

  /** Every block contributes exactly two markers: over a list naming each
      start and end line once, the lists hold twice as many markers as there
      are blocks. */
  lemma {:induction false} TwoMarkersPerBlock(blocks: seq<ProfileBlock>, lines: seq<int>)
    requires forall j :: 0 <= j < |blocks| ==>
      multiset(lines)[blocks[j].startLine] == 1 && multiset(lines)[blocks[j].endLine] == 1
    ensures Total(blocks, lines) == 2 * |blocks|
  {
    if blocks == [] {
      TotalEmpty(lines);
    } else {
      var init := blocks[..|blocks| - 1];
      var last := blocks[|blocks| - 1];
      TwoMarkersPerBlock(init, lines);
      assert init + [last] == blocks;
      TotalSnoc(init, last, lines);
      OnLinesCount(last, lines);
    }
  }

  /** No blocks, no markers. */
  lemma {:induction false} TotalEmpty(lines: seq<int>)
    ensures Total([], lines) == 0
  {
    if lines != [] {
      TotalEmpty(lines[..|lines| - 1]);
    }
  }

  /** The blocks that begin on line, in order. */
  function Starting(blocks: seq<ProfileBlock>, line: int): seq<ProfileBlock>
  {
    if blocks == [] then []
    else
      var last := blocks[|blocks| - 1];
      Starting(blocks[..|blocks| - 1], line) + (if last.startLine == line then [last] else [])
  }

  /** The blocks that end on line, in order. */
  function Ending(blocks: seq<ProfileBlock>, line: int): seq<ProfileBlock>
  {
    if blocks == [] then []
    else
      var last := blocks[|blocks| - 1];
      Ending(blocks[..|blocks| - 1], line) + (if last.endLine == line then [last] else [])
  }

  /** One more block appends its markers to the list of line. */
  lemma LineMarkersSnoc(blocks: seq<ProfileBlock>, i: nat, line: int)
    requires i < |blocks|
    ensures LineMarkers(blocks[..i + 1], line) == LineMarkers(blocks[..i], line) + MarkersOn(blocks[i], line)
  {
    assert blocks[..i + 1][..i] == blocks[..i];
  }

  /** byLine holds, for every line, the list the blocks give it, and no entry
      for a line they leave empty. */
  ghost predicate Grouped(byLine: map<int, seq<Marker>>, blocks: seq<ProfileBlock>)
  {
    (forall line :: line in byLine <==> LineMarkers(blocks, line) != []) &&
    (forall line :: line in byLine ==> byLine[line] == LineMarkers(blocks, line))
  }

  /** The list of line in byLine; a missing entry reads as an empty list. */
  function Lookup(byLine: map<int, seq<Marker>>, line: int): seq<Marker>
  {
    if line in byLine then byLine[line] else []
  }

  /** One turn of the grouping loop: the begin marker goes to the block's
      start line, then the end marker to its end line. */
  function AddBlock(byLine: map<int, seq<Marker>>, b: ProfileBlock): map<int, seq<Marker>>
  {
    var withBegin := byLine[b.startLine := Lookup(byLine, b.startLine) + [BeginMarker(b)]];
    withBegin[b.endLine := Lookup(withBegin, b.endLine) + [EndMarker(b)]]
  }

  /** Adding block i to the grouping of the blocks before it groups one
      block more. */
  lemma AddBlockGroups(byLine: map<int, seq<Marker>>, blocks: seq<ProfileBlock>, i: nat)
    requires i < |blocks| && Grouped(byLine, blocks[..i])
    ensures Grouped(AddBlock(byLine, blocks[i]), blocks[..i + 1])
  {
    var after := AddBlock(byLine, blocks[i]);
    forall line
      ensures line in after <==> LineMarkers(blocks[..i + 1], line) != []
      ensures line in after ==> after[line] == LineMarkers(blocks[..i + 1], line)
    {
      LineMarkersSnoc(blocks, i, line);
      AddBlockAt(byLine, blocks[i], line);
      assert Lookup(byLine, line) == LineMarkers(blocks[..i], line);
    }
  }

  /** What AddBlock does to the list of one line. */
  lemma AddBlockAt(byLine: map<int, seq<Marker>>, b: ProfileBlock, line: int)
    ensures line in AddBlock(byLine, b) <==> line in byLine || MarkersOn(b, line) != []
    ensures Lookup(AddBlock(byLine, b), line) == Lookup(byLine, line) + MarkersOn(b, line)
  {
  }

  /** The grouping loop of main: profileBlockByLine. A line missing from the
      map reads as an empty list, so appending creates its entry. */
  method GroupByLine(blocks: seq<ProfileBlock>) returns (byLine: map<int, seq<Marker>>)
    ensures forall line :: line in byLine <==> LineMarkers(blocks, line) != []
    ensures forall line :: line in byLine ==> byLine[line] == LineMarkers(blocks, line)
  {
    byLine := map[];
    for i := 0 to |blocks|
      invariant Grouped(byLine, blocks[..i])
    {
      var b := blocks[i];
      AddBlockGroups(byLine, blocks, i);
      var s := if b.startLine in byLine then byLine[b.startLine] else [];
      byLine := byLine[b.startLine := s + [BeginMarker(b)]];
      var e := if b.endLine in byLine then byLine[b.endLine] else [];
      byLine := byLine[b.endLine := e + [EndMarker(b)]];
    }
    assert blocks[..|blocks|] == blocks;
  }

  // ---------------------------------------------------------------------
  // Splicing colour codes into one line
  // ---------------------------------------------------------------------

  /** The colour code of a marker: green for a covered block, red for one
      never run, reset at a block's end. */
  function ColorOf(m: Marker): Color
  {
    if m.isBegin then (if m.count > 0 then Green else Red) else Reset
  }

  /** Every marker column points into the line or just past its end, so no
      rune slice of the splice loop panics once the markers are sorted. */
  predicate MarkersFit(line: string, ms: seq<Marker>)
  {
    forall i :: 0 <= i < |ms| ==> 1 <= ms[i].col <= |line| + 1
  }

  /** curCol after the first k markers. */
  function CurCol(ms: seq<Marker>, k: nat): int
    requires k <= |ms|
  {
    if k == 0 then 0 else ms[k - 1].col - 1
  }

  /** The chunks written for the first k markers: the runes from curCol up to
      the marker's column (possibly none), then the marker's colour code. */
  function Chunks(line: string, ms: seq<Marker>, k: nat): seq<Item<char>>
    requires SortedByCol(ms) && MarkersFit(line, ms) && k <= |ms|
  {
    if k == 0 then []
    else Chunks(line, ms, k - 1) + [Text(line[CurCol(ms, k - 1)..ms[k - 1].col - 1]), Code(ColorOf(ms[k - 1]))]
  }

  /** The printed line: the chunks, then the rest of the line if any runes are
      left after the last marker. */
  function Splice(line: string, ms: seq<Marker>): seq<Item<char>>
    requires SortedByCol(ms) && MarkersFit(line, ms)
  {
    var cur := CurCol(ms, |ms|);
    Chunks(line, ms, |ms|) + (if cur < |line| then [Text(line[cur..])] else [])
  }

  /** The two items written for marker k - 1: the runes from curCol up to
      its column, then its colour code. */
  lemma ChunkItems(line: string, ms: seq<Marker>, k: nat)
    requires SortedByCol(ms) && MarkersFit(line, ms) && 0 < k <= |ms|
    ensures Chunks(line, ms, k) == Chunks(line, ms, k - 1) + [Text(line[CurCol(ms, k - 1)..ms[k - 1].col - 1]), Code(ColorOf(ms[k - 1]))]
    ensures Strip([Text(line[CurCol(ms, k - 1)..ms[k - 1].col - 1]), Code(ColorOf(ms[k - 1]))])
         == line[CurCol(ms, k - 1)..ms[k - 1].col - 1]
    ensures Codes([Text(line[CurCol(ms, k - 1)..ms[k - 1].col - 1]), Code(ColorOf(ms[k - 1]))])
         == [ColorOf(ms[k - 1])]
  {
    var piece := line[CurCol(ms, k - 1)..ms[k - 1].col - 1];
    StripCons(Text(piece), [Code(ColorOf(ms[k - 1]))]);
    StripCons<char>(Code(ColorOf(ms[k - 1])), []);
  }

  /** Marker k - 1 extends the text from the line up to the old curCol to
      the line up to the new one. */
  lemma ChunksTextStep(line: string, ms: seq<Marker>, k: nat)
    requires SortedByCol(ms) && MarkersFit(line, ms) && 0 < k <= |ms|
    requires Strip(Chunks(line, ms, k - 1)) == line[..CurCol(ms, k - 1)]
    ensures Strip(Chunks(line, ms, k)) == line[..CurCol(ms, k)]
  {
    var piece := line[CurCol(ms, k - 1)..ms[k - 1].col - 1];
    ChunkItems(line, ms, k);
    StripAppend(Chunks(line, ms, k - 1), [Text(piece), Code(ColorOf(ms[k - 1]))]);
    assert line[..CurCol(ms, k - 1)] + piece == line[..ms[k - 1].col - 1];
  }

  /** The text of the first k markers' chunks is the line up to curCol. */
  lemma {:induction false} ChunksText(line: string, ms: seq<Marker>, k: nat)
    requires SortedByCol(ms) && MarkersFit(line, ms) && k <= |ms|
    ensures Strip(Chunks(line, ms, k)) == line[..CurCol(ms, k)]
  {
    if k > 0 {
      ChunksText(line, ms, k - 1);
      ChunksTextStep(line, ms, k);
    }
  }

  /** Marker k - 1 adds its own colour code after those of the markers
      before it. */
  lemma ChunksCodesStep(line: string, ms: seq<Marker>, k: nat)
    requires SortedByCol(ms) && MarkersFit(line, ms) && 0 < k <= |ms|
    requires Codes(Chunks(line, ms, k - 1)) == seq(k - 1, i requires 0 <= i < k - 1 => ColorOf(ms[i]))
    ensures Codes(Chunks(line, ms, k)) == seq(k, i requires 0 <= i < k => ColorOf(ms[i]))
  {
    var piece := line[CurCol(ms, k - 1)..ms[k - 1].col - 1];
    ChunkItems(line, ms, k);
    CodesAppend(Chunks(line, ms, k - 1), [Text(piece), Code(ColorOf(ms[k - 1]))]);
    assert seq(k - 1, i requires 0 <= i < k - 1 => ColorOf(ms[i])) + [ColorOf(ms[k - 1])]
        == seq(k, i requires 0 <= i < k => ColorOf(ms[i]));
  }

  /** The colour codes of the first k markers' chunks, one per marker. */
  lemma {:induction false} ChunksCodes(line: string, ms: seq<Marker>, k: nat)
    requires SortedByCol(ms) && MarkersFit(line, ms) && k <= |ms|
    ensures Codes(Chunks(line, ms, k)) == seq(k, i requires 0 <= i < k => ColorOf(ms[i]))
  {
    if k > 0 {
      ChunksCodes(line, ms, k - 1);
      ChunksCodesStep(line, ms, k);
    }
  }

  /** Deleting the colour codes from a printed line gives back the line. */
  lemma SpliceRoundTrip(line: string, ms: seq<Marker>)
    requires SortedByCol(ms) && MarkersFit(line, ms)
    ensures Strip(Splice(line, ms)) == line
  {
    var cur := CurCol(ms, |ms|);
    ChunksText(line, ms, |ms|);
    var rest: seq<Item<char>> := if cur < |line| then [Text(line[cur..])] else [];
    StripAppend(Chunks(line, ms, |ms|), rest);
    if cur < |line| {
      StripCons(Text(line[cur..]), []);
    }
  }

  /** A printed line carries one colour code per marker, in the sorted order. */
  lemma SpliceCodes(line: string, ms: seq<Marker>)
    requires SortedByCol(ms) && MarkersFit(line, ms)
    ensures Codes(Splice(line, ms)) == seq(|ms|, i requires 0 <= i < |ms| => ColorOf(ms[i]))
  {
    var cur := CurCol(ms, |ms|);
    ChunksCodes(line, ms, |ms|);
    var rest: seq<Item<char>> := if cur < |line| then [Text(line[cur..])] else [];
    CodesAppend(Chunks(line, ms, |ms|), rest);
    if cur < |line| {
      StripCons(Text(line[cur..]), []);
    }
  }

  /** The code of marker i stands right after the first col - 1 runes of the
      line: the printed line begins with a piece whose last item is that code
      and whose text is the line up to the marker's column. */
  lemma SpliceCodePosition(line: string, ms: seq<Marker>, i: nat)
    requires SortedByCol(ms) && MarkersFit(line, ms) && i < |ms|
    ensures var p := Chunks(line, ms, i + 1);
      p <= Splice(line, ms) && p[|p| - 1] == Code(ColorOf(ms[i])) &&
      Strip(p) == line[..ms[i].col - 1]
  {
    ChunksText(line, ms, i + 1);
    ChunksPrefix(line, ms, i + 1, |ms|);
  }

  /** The chunks of fewer markers are a prefix of the chunks of more. */
  lemma {:induction false} ChunksPrefix(line: string, ms: seq<Marker>, k: nat, n: nat)
    requires SortedByCol(ms) && MarkersFit(line, ms) && k <= n <= |ms|
    ensures Chunks(line, ms, k) <= Chunks(line, ms, n)
  {
    if k < n {
      ChunksPrefix(line, ms, k, n - 1);
    }
  }

  /** The splice loop of main for one line with markers. */
  method PaintLine(line: string, ms: seq<Marker>) returns (colorChunks: seq<Item<char>>)
    requires SortedByCol(ms) && MarkersFit(line, ms)
    ensures colorChunks == Splice(line, ms)
    ensures Strip(colorChunks) == line
    ensures Codes(colorChunks) == seq(|ms|, i requires 0 <= i < |ms| => ColorOf(ms[i]))
  {
    colorChunks := [];
    var curCol := 0;
    for k := 0 to |ms|
      invariant curCol == CurCol(ms, k)
      invariant colorChunks == Chunks(line, ms, k)
    {
      var block := ms[k];
      assert k > 0 ==> !Less(ms[k], ms[k - 1]);
      colorChunks := colorChunks + [Text(line[curCol..block.col - 1])];
      var colorCode;
      if block.isBegin {
        if block.count > 0 {
          colorCode := Green;
        } else {
          colorCode := Red;
        }
      } else {
        colorCode := Reset;
      }
      colorChunks := colorChunks + [Code(colorCode)];
      curCol := block.col - 1;
    }
    if curCol < |line| {
      assert line[curCol..|line|] == line[curCol..];
      colorChunks := colorChunks + [Text(line[curCol..|line|])];
    }
    SpliceRoundTrip(line, ms);
    SpliceCodes(line, ms);
  }

  // ---------------------------------------------------------------------
  // Printing one file of a profile
  // ---------------------------------------------------------------------

  /** The markers of every line of the file point into that line. */
  predicate ColumnsFit(lines: seq<string>, blocks: seq<ProfileBlock>)
  {
    forall n :: 0 <= n < |lines| ==> MarkersFit(lines[n], LineMarkers(blocks, n + 1))
  }

  /** How main prints one line: as it is when no block begins or ends on it,
      else with its markers, in one of the orders sort.Sort may leave them
      in, spliced in. Either way the runes of the line are kept. */
  ghost predicate PrintedAs(line: string, markers: seq<Marker>, out: seq<Item<char>>)
  {
    Strip(out) == line &&
    (markers == [] ==> out == [Text(line)]) &&
    (markers != [] ==> exists ms :: IsSortingOf(ms, markers) && MarkersFit(line, ms) && out == Splice(line, ms))
  }

  /** A line without markers is printed as it is. */
  lemma PrintedPlain(line: string)
    ensures PrintedAs(line, [], [Text(line)])
  {
    StripCons(Text(line), []);
    assert [Text(line)] == [Text(line)] + [];
  }

  /** The body of the loop of main for a line with markers: sort them, then
      splice them in. */
  method PaintMarkedLine(line: string, lineBlocks: seq<Marker>) returns (chunks: seq<Item<char>>)
    requires lineBlocks != [] && MarkersFit(line, lineBlocks)
    ensures PrintedAs(line, lineBlocks, chunks)
  {
    var a := new Marker[|lineBlocks|](i requires 0 <= i < |lineBlocks| => lineBlocks[i]);
    assert a[..] == lineBlocks;
    SortMarkers(a);
    var ms := a[..];
    SortedFit(line, lineBlocks, ms);
    chunks := PaintLine(line, ms);
  }

  /** The loop of main over the lines of one file. Line num + 1 of the
      profile is entry num of the file; each entry of the result is one
      Println. */
  method PrintFile(lines: seq<string>, blocks: seq<ProfileBlock>) returns (printed: seq<seq<Item<char>>>)
    requires ColumnsFit(lines, blocks)
    ensures |printed| == |lines|
    ensures forall n :: 0 <= n < |lines| ==> PrintedAs(lines[n], LineMarkers(blocks, n + 1), printed[n])
  {
    var byLine := GroupByLine(blocks);
    printed := [];
    for num := 0 to |lines|
      invariant |printed| == num
      invariant forall n :: 0 <= n < num ==> PrintedAs(lines[n], LineMarkers(blocks, n + 1), printed[n])
    {
      var line := lines[num];
      var chunks;
      if num + 1 in byLine {
        chunks := PaintMarkedLine(line, byLine[num + 1]);
      } else {
        chunks := [Text(line)];
        PrintedPlain(line);
      }
      PrintedSnoc(lines, blocks, printed, chunks);
      printed := printed + [chunks];
    }
  }

  /** One more printed line keeps every earlier line as it was printed. */
  lemma PrintedSnoc(lines: seq<string>, blocks: seq<ProfileBlock>, printed: seq<seq<Item<char>>>,
                    chunks: seq<Item<char>>)
    requires |printed| < |lines|
    requires forall n :: 0 <= n < |printed| ==> PrintedAs(lines[n], LineMarkers(blocks, n + 1), printed[n])
    requires PrintedAs(lines[|printed|], LineMarkers(blocks, |printed| + 1), chunks)
    ensures forall n :: 0 <= n < |printed| + 1 ==>
      PrintedAs(lines[n], LineMarkers(blocks, n + 1), (printed + [chunks])[n])
  {
    forall n | 0 <= n < |printed| + 1
      ensures PrintedAs(lines[n], LineMarkers(blocks, n + 1), (printed + [chunks])[n])
    {
      if n < |printed| {
        assert (printed + [chunks])[n] == printed[n];
      }
    }
  }

  /** Sorting keeps every marker, so the sorted list still fits the line. */
  lemma SortedFit(line: string, markers: seq<Marker>, ms: seq<Marker>)
    requires MarkersFit(line, markers) && multiset(ms) == multiset(markers)
    ensures MarkersFit(line, ms)
  {
    forall i | 0 <= i < |ms|
      ensures 1 <= ms[i].col <= |line| + 1
    {
      assert ms[i] in multiset(markers);
      var j :| 0 <= j < |markers| && markers[j] == ms[i];
    }
  }
}

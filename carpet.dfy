/** go-carpet.go: the byte-offset coverage painter of printCoverForDir, the
    header above each file, the resolution of a profile's file name, and the
    collection of directories that hold tests.

    Go strings and byte slices are both sequences of bytes here. The coverage
    boundaries of a file come from the profile library and are inputs. */
module Carpet {
  import opened Tokens

  newtype byte = x: int | 0 <= x < 256

  const Newline: byte := 10
  const Tilde: byte := 126
  const Underscore: byte := 95

  /** The bytes of an ASCII string literal. */
  function Ascii(s: string): (r: seq<byte>)
    requires forall i :: 0 <= i < |s| ==> s[i] as int < 256
    ensures |r| == |s|
    ensures forall i :: 0 <= i < |s| ==> r[i] as int == s[i] as int
  {
    seq(|s|, i requires 0 <= i < |s| => s[i] as int as byte)
  }

  /** strings.Repeat of a one-byte string. */
  function Repeat(b: byte, n: nat): (r: seq<byte>)
    ensures |r| == n
    ensures forall i :: 0 <= i < n ==> r[i] == b
  {
    if n == 0 then [] else Repeat(b, n - 1) + [b]
  }

  /** The stream that printCoverForDir writes to. */
  class Writer {
    var written: seq<Item<byte>>

    constructor ()
      ensures written == []
    {
      written := [];
    }

    method Write(items: seq<Item<byte>>)
      modifies this
      ensures written == old(written) + items
    {
      written := written + items;
    }
  }

  // ---------------------------------------------------------------------
  // Header
  // ---------------------------------------------------------------------

  /** One line of the header: a colour code, the text, a reset and a newline. */
  function ColoredLine(c: Color, text: seq<byte>): seq<Item<byte>>
  {
    [Code(c), Text(text), Code(Reset), Text([Newline])]
  }

  /** The yellow file name on one line, then as many '~' as the name has
      bytes, in black+h, on the next. */
  function Header(name: seq<byte>): seq<Item<byte>>
  {
    ColoredLine(Yellow, name) + ColoredLine(BlackHigh, Repeat(Tilde, |name|))
  }

  lemma ColoredLineItems(c: Color, text: seq<byte>)
    ensures Strip(ColoredLine(c, text)) == text + [Newline]
    ensures Codes(ColoredLine(c, text)) == [c, Reset]
  {
    var t3 := [Text([Newline])];
    StripCons(Text([Newline]), []);
    var t2 := [Code(Reset)] + t3;
    StripCons(Code(Reset), t3);
    var t1 := [Text(text)] + t2;
    StripCons(Text(text), t2);
    StripCons(Code(c), t1);
    assert ColoredLine(c, text) == [Code(c)] + t1;
  }

  /** Two coloured lines read as both texts, each followed by a newline. */
  lemma TwoColoredLines(c: Color, x: seq<byte>, d: Color, y: seq<byte>)
    ensures Strip(ColoredLine(c, x) + ColoredLine(d, y)) == x + [Newline] + y + [Newline]
    ensures Codes(ColoredLine(c, x) + ColoredLine(d, y)) == [c, Reset, d, Reset]
  {
    ColoredLineItems(c, x);
    ColoredLineItems(d, y);
    StripAppend(ColoredLine(c, x), ColoredLine(d, y));
    CodesAppend(ColoredLine(c, x), ColoredLine(d, y));
    assert (x + [Newline]) + (y + [Newline]) == x + [Newline] + y + [Newline];
  }

  lemma HeaderUnderline(name: seq<byte>)
    ensures Strip(Header(name)) == name + [Newline] + Repeat(Tilde, |name|) + [Newline]
    ensures Codes(Header(name)) == [Yellow, Reset, BlackHigh, Reset]
  {
    TwoColoredLines(Yellow, name, BlackHigh, Repeat(Tilde, |name|));
  }

  // ---------------------------------------------------------------------
  // Body: the walk over the coverage boundaries
  // ---------------------------------------------------------------------

  /** One coverage boundary: a byte offset where a block starts or ends, and
      the block's execution count. */
  datatype Boundary = Boundary(offset: int, start: bool, count: int)

  /** Every offset lies in 0 .. |file|. Go would also accept an upper bound up
      to the capacity of the file's slice, which the model does not cover (see
      Carpet.InFile in the README). */
  predicate InFile(file: seq<byte>, bs: seq<Boundary>)
  {
    forall i :: 0 <= i < |bs| ==> 0 <= bs[i].offset <= |file|
  }

  /** The offsets never go back. */
  predicate Ascending(bs: seq<Boundary>)
  {
    forall i :: 0 < i < |bs| ==> bs[i - 1].offset <= bs[i].offset
  }

  /** The colour code written for a boundary: green for a start with a
      positive count, red for a start with count zero, reset for an end, and
      nothing for a start with a negative count. */
  function Mark(b: Boundary): seq<Item<byte>>
  {
    if b.start && b.count > 0 then [Code(Green)]
    else if b.start && b.count == 0 then [Code(Red)]
    else if !b.start then [Code(Reset)]
    else []
  }

  /** For a count that is not negative, the switch writes exactly the colour
      code of the boundary; for a start with a negative count it writes none. */
  lemma MarkIsColorOf(b: Boundary)
    ensures b.count >= 0 ==> Mark(b) == [Code(ColorOf(b))]
    ensures b.count < 0 && b.start ==> Mark(b) == []
    ensures !b.start ==> Mark(b) == [Code(Reset)]
  {
  }

  /** The colour of a boundary whose count is not negative. */
  function ColorOf(b: Boundary): Color
  {
    if !b.start then Reset else if b.count > 0 then Green else Red
  }

  /** The cursor after the first k boundaries. */
  function Cursor(bs: seq<Boundary>, k: nat): int
    requires k <= |bs|
  {
    if k == 0 then 0 else bs[k - 1].offset
  }

  /** The bytes between the cursor and the next boundary, when there are any. */
  function Gap(file: seq<byte>, cur: int, offset: int): seq<Item<byte>>
    requires 0 <= cur <= |file| && 0 <= offset <= |file|
  {
    if offset > cur then [Text(file[cur..offset])] else []
  }

  /** One turn of the walk: the gap up to the boundary, then its colour code. */
  function Step(file: seq<byte>, cur: int, b: Boundary): seq<Item<byte>>
    requires 0 <= cur <= |file| && 0 <= b.offset <= |file|
  {
    Gap(file, cur, b.offset) + Mark(b)
  }

  /** What the walk has written after the first k boundaries. */
  function Walked(file: seq<byte>, bs: seq<Boundary>, k: nat): seq<Item<byte>>
    requires InFile(file, bs) && k <= |bs|
  {
    if k == 0 then []
    else Walked(file, bs, k - 1) + Step(file, Cursor(bs, k - 1), bs[k - 1])
  }

  /** The bytes after the cursor, when there are any. */
  function Tail(file: seq<byte>, cur: int): seq<Item<byte>>
    requires 0 <= cur <= |file|
  {
    if cur < |file| then [Text(file[cur..])] else []
  }

  /** The painted body of a file: the walk, the tail, one newline. */
  function Body(file: seq<byte>, bs: seq<Boundary>): seq<Item<byte>>
    requires InFile(file, bs)
  {
    Walked(file, bs, |bs|) + Tail(file, Cursor(bs, |bs|)) + [Text([Newline])]
  }

  /** One turn of the loop of printCoverForDir: the bytes up to the boundary
      when there are any, then the boundary's colour code. */
  method WriteStep(out: Writer, file: seq<byte>, cur: int, b: Boundary)
    requires 0 <= cur <= |file| && 0 <= b.offset <= |file|
    modifies out
    ensures out.written == old(out.written) + Step(file, cur, b)
  {
    if b.offset > cur {
      out.Write([Text(file[cur..b.offset])]);
    }
    if b.start && b.count > 0 {
      out.Write([Code(Green)]);
    } else if b.start && b.count == 0 {
      out.Write([Code(Red)]);
    } else if !b.start {
      out.Write([Code(Reset)]);
    }
  }

  /** printCoverForDir, for one file: the header, then the body. */
  method WriteFileCover(out: Writer, name: seq<byte>, file: seq<byte>, bs: seq<Boundary>)
    requires InFile(file, bs)
    modifies out
    ensures out.written == old(out.written) + Header(name) + Body(file, bs)
  {
    out.Write(Header(name));
    ghost var start := out.written;
    var cur := 0;
    for i := 0 to |bs|
      invariant 0 <= cur <= |file| && cur == Cursor(bs, i)
      invariant out.written == start + Walked(file, bs, i)
    {
      WriteStep(out, file, cur, bs[i]);
      WalkedSnoc(start, file, bs, i);
      cur := bs[i].offset;
    }
    WriteTail(out, file, cur);
    BodyAfter(start, file, bs);
  }

  /** One more step of the walk, written after start. */
  lemma WalkedSnoc(start: seq<Item<byte>>, file: seq<byte>, bs: seq<Boundary>, i: nat)
    requires InFile(file, bs) && i < |bs|
    ensures start + Walked(file, bs, i) + Step(file, Cursor(bs, i), bs[i]) == start + Walked(file, bs, i + 1)
  {
  }

  /** The walk, the tail and the newline, written after start, are the body. */
  lemma BodyAfter(start: seq<Item<byte>>, file: seq<byte>, bs: seq<Boundary>)
    requires InFile(file, bs)
    ensures start + Walked(file, bs, |bs|) + Tail(file, Cursor(bs, |bs|)) + [Text([Newline])]
         == start + Body(file, bs)
  {
  }

  /** The end of printCoverForDir for one file: the bytes after the cursor
      when there are any, then a newline. */
  method WriteTail(out: Writer, file: seq<byte>, cur: int)
    requires 0 <= cur <= |file|
    modifies out
    ensures out.written == old(out.written) + Tail(file, cur) + [Text([Newline])]
  {
    if cur < |file| {
      out.Write([Text(file[cur..|file|])]);
      assert file[cur..|file|] == file[cur..];
    }
    out.Write([Text([Newline])]);
  }

  /** With no boundaries the body is the file followed by one newline. */
  lemma BodyWithoutBoundaries(file: seq<byte>)
    ensures Strip(Body(file, [])) == file + [Newline]
    ensures Codes(Body(file, [])) == []
  {
    var tail := Tail(file, 0);
    StripAppend(tail, [Text([Newline])]);
    CodesAppend(tail, [Text([Newline])]);
    assert file[0..] == file;
  }

  /** The body always closes with the newline written after the tail. */
  lemma BodyEndsWithNewline(file: seq<byte>, bs: seq<Boundary>)
    requires InFile(file, bs)
    ensures |Body(file, bs)| > 0 && Body(file, bs)[|Body(file, bs)| - 1] == Text([Newline])
  {
  }

  /** The codes of the first k boundaries, then that of boundary k. */
  lemma ColorsSnoc(bs: seq<Boundary>, k: nat)
    requires 0 < k <= |bs|
    ensures seq(k - 1, i requires 0 <= i < k - 1 => ColorOf(bs[i])) + [ColorOf(bs[k - 1])]
         == seq(k, i requires 0 <= i < k => ColorOf(bs[i]))
  {
  }

  /** One step writes the boundary's colour code and no other. */
  lemma StepCodes(file: seq<byte>, cur: int, b: Boundary)
    requires 0 <= cur <= |file| && 0 <= b.offset <= |file| && b.count >= 0
    ensures Codes(Step(file, cur, b)) == [ColorOf(b)]
  {
    CodesAppend(Gap(file, cur, b.offset), Mark(b));
  }

  lemma {:induction false} WalkedCodes(file: seq<byte>, bs: seq<Boundary>, k: nat)
    requires InFile(file, bs) && k <= |bs|
    requires forall i :: 0 <= i < |bs| ==> bs[i].count >= 0
    ensures Codes(Walked(file, bs, k)) == seq(k, i requires 0 <= i < k => ColorOf(bs[i]))
  {
    if k > 0 {
      WalkedCodes(file, bs, k - 1);
      var step := Step(file, Cursor(bs, k - 1), bs[k - 1]);
      CodesAppend(Walked(file, bs, k - 1), step);
      StepCodes(file, Cursor(bs, k - 1), bs[k - 1]);
      ColorsSnoc(bs, k);
    }
  }

  /** With counts that are not negative, the body holds exactly one colour
      code per boundary, in boundary order: green for a covered start, red
      for an uncovered start, reset for an end. */
  lemma BodyCodes(file: seq<byte>, bs: seq<Boundary>)
    requires InFile(file, bs)
    requires forall i :: 0 <= i < |bs| ==> bs[i].count >= 0
    ensures Codes(Body(file, bs)) == seq(|bs|, i requires 0 <= i < |bs| => ColorOf(bs[i]))
  {
    WalkedCodes(file, bs, |bs|);
    var tail := Tail(file, Cursor(bs, |bs|));
    CodesAppend(Walked(file, bs, |bs|), tail);
    CodesAppend(Walked(file, bs, |bs|) + tail, [Text([Newline])]);
  }

  lemma {:induction false} WalkedChunksNonEmpty(file: seq<byte>, bs: seq<Boundary>, k: nat)
    requires InFile(file, bs) && k <= |bs|
    ensures forall i :: 0 <= i < |Walked(file, bs, k)| && Walked(file, bs, k)[i].Text? ==>
              |Walked(file, bs, k)[i].chunk| > 0
  {
    if k > 0 {
      WalkedChunksNonEmpty(file, bs, k - 1);
    }
  }

  /** No text is written for a gap of zero bytes: every text chunk of the body
      is non-empty. */
  lemma BodyChunksNonEmpty(file: seq<byte>, bs: seq<Boundary>)
    requires InFile(file, bs)
    ensures forall i :: 0 <= i < |Body(file, bs)| && Body(file, bs)[i].Text? ==>
              |Body(file, bs)[i].chunk| > 0
  {
    WalkedChunksNonEmpty(file, bs, |bs|);
  }

  lemma StepText(file: seq<byte>, cur: int, b: Boundary)
    requires 0 <= cur <= b.offset <= |file|
    ensures Strip(Step(file, cur, b)) == file[cur..b.offset]
  {
    StripAppend(Gap(file, cur, b.offset), Mark(b));
    if b.offset > cur {
      StripCons(Text(file[cur..b.offset]), []);
      assert Gap(file, cur, b.offset) == [Text(file[cur..b.offset])] + [];
    }
    if Mark(b) != [] {
      StripCons(Mark(b)[0], []);
      assert Mark(b) == [Mark(b)[0]] + [];
    }
  }

  /** Text that reads as the file up to cur, followed by text that reads as
      the bytes from cur to off, reads as the file up to off. */
  lemma TextSnoc(file: seq<byte>, prev: seq<Item<byte>>, step: seq<Item<byte>>, cur: int, off: int)
    requires 0 <= cur <= off <= |file|
    requires Strip(prev) == file[..cur] && Strip(step) == file[cur..off]
    ensures Strip(prev + step) == file[..off]
  {
    StripAppend(prev, step);
    assert file[..cur] + file[cur..off] == file[..off];
  }

  /** One step of the walk extends the text from the file up to the old
      cursor to the file up to the new one. */
  lemma WalkedTextStep(file: seq<byte>, bs: seq<Boundary>, k: nat)
    requires InFile(file, bs) && Ascending(bs) && 0 < k <= |bs|
    requires Strip(Walked(file, bs, k - 1)) == file[..Cursor(bs, k - 1)]
    ensures Strip(Walked(file, bs, k)) == file[..Cursor(bs, k)]
  {
    var cur := Cursor(bs, k - 1);
    var b := bs[k - 1];
    assert cur <= b.offset by {
      if k > 1 {
        assert bs[k - 2].offset <= bs[k - 1].offset;
      }
    }
    StepText(file, cur, b);
    TextSnoc(file, Walked(file, bs, k - 1), Step(file, cur, b), cur, b.offset);
  }

  lemma {:induction false} WalkedText(file: seq<byte>, bs: seq<Boundary>, k: nat)
    requires InFile(file, bs) && Ascending(bs) && k <= |bs|
    ensures Strip(Walked(file, bs, k)) == file[..Cursor(bs, k)]
  {
    if k > 0 {
      WalkedText(file, bs, k - 1);
      WalkedTextStep(file, bs, k);
    }
  }

  /** With ascending offsets, deleting the colour codes from the body gives
      back the file followed by one newline. */
  lemma BodyRoundTrip(file: seq<byte>, bs: seq<Boundary>)
    requires InFile(file, bs) && Ascending(bs)
    ensures Strip(Body(file, bs)) == file + [Newline]
  {
    WalkedText(file, bs, |bs|);
    var cur := Cursor(bs, |bs|);
    var tail := Tail(file, cur);
    StripAppend(Walked(file, bs, |bs|), tail);
    StripAppend(Walked(file, bs, |bs|) + tail, [Text([Newline])]);
    assert file[..cur] + Strip(tail) == file;
  }

  /** The ascending order is needed: when an offset goes back, the cursor goes
      back with it and the bytes after it are written a second time. */
  lemma BacktrackRepeatsBytes()
    ensures var file: seq<byte> := [97, 98];
            var bs := [Boundary(2, true, 1), Boundary(1, false, 0)];
            InFile(file, bs) && Strip(Body(file, bs)) == [97, 98, 98, Newline]
  {
    var file: seq<byte> := [97, 98];
    var bs := [Boundary(2, true, 1), Boundary(1, false, 0)];
    assert Walked(file, bs, 1) == [Text(file[0..2]), Code(Green)];
    assert Walked(file, bs, 2) == [Text(file[0..2]), Code(Green), Code(Reset)];
    var body := Body(file, bs);
    assert body == [Text(file[0..2]), Code(Green), Code(Reset), Text(file[1..]), Text([Newline])];
    assert file[0..2] == [97, 98] && file[1..] == [98];
    assert Strip(body[4..]) == [Newline];
    assert Strip(body[3..]) == [98, Newline];
    assert Strip(body[1..]) == [98, Newline];
  }

  // ---------------------------------------------------------------------
  // File-name resolution
  // ---------------------------------------------------------------------

  /** strings.TrimLeft(s, "_"): every leading underscore removed. */
  function TrimLeftUnderscores(s: seq<byte>): (r: seq<byte>)
    ensures |r| <= |s| && r == s[|s| - |r|..]
    ensures forall i :: 0 <= i < |s| - |r| ==> s[i] == Underscore
    ensures r == [] || r[0] != Underscore
  {
    if s != [] && s[0] == Underscore then TrimLeftUnderscores(s[1..]) else s
  }

  /** A profile's file name: a name starting with '_' is an absolute path with
      underscores in front; any other name lies under $GOPATH/src. */
  function ResolveFileName(name: seq<byte>, gopath: seq<byte>): seq<byte>
  {
    if |name| > 0 && name[0] == Underscore then TrimLeftUnderscores(name)
    else gopath + Ascii("/src/") + name
  }

  /** A name with a leading '_' resolves to the name without any of its
      leading underscores, and to nothing under $GOPATH. */
  lemma ResolveUnderscoreName(name: seq<byte>, gopath: seq<byte>)
    requires |name| > 0 && name[0] == Underscore
    ensures var r := ResolveFileName(name, gopath);
            |r| < |name| && r == name[|name| - |r|..] &&
            (forall i :: 0 <= i < |name| - |r| ==> name[i] == Underscore) &&
            (r == [] || r[0] != Underscore)
  {
  }

  /** Any other name resolves to $GOPATH, then "/src/", then the name. */
  lemma ResolveGopathName(name: seq<byte>, gopath: seq<byte>)
    requires !(|name| > 0 && name[0] == Underscore)
    ensures var r := ResolveFileName(name, gopath);
            |r| == |gopath| + 5 + |name| && r[..|gopath|] == gopath &&
            r[|gopath|..|gopath| + 5] == [47, 115, 114, 99, 47] && r[|gopath| + 5..] == name
  {
    var slashSrc := Ascii("/src/");
    assert slashSrc == [47, 115, 114, 99, 47];
  }

  // ---------------------------------------------------------------------
  // All files of a profile
  // ---------------------------------------------------------------------

  /** The coverage of one source file: its name as recorded in the profile,
      and its boundaries. */
  datatype FileProfile = FileProfile(fileName: seq<byte>, boundaries: seq<Boundary>)

  /** The files that exist, with their contents. */
  type FileSystem = map<seq<byte>, seq<byte>>

  /** The file of a profile, if it exists, is long enough for its boundaries. */
  predicate Fits(p: FileProfile, gopath: seq<byte>, fs: FileSystem)
  {
    var path := ResolveFileName(p.fileName, gopath);
    path in fs ==> InFile(fs[path], p.boundaries)
  }

  predicate Readable(profiles: seq<FileProfile>, gopath: seq<byte>, fs: FileSystem)
  {
    forall i :: 0 <= i < |profiles| ==> Fits(profiles[i], gopath, fs)
  }

  function NotExistsMessage(path: seq<byte>): seq<Item<byte>>
  {
    [Text(Ascii("File '") + path + Ascii("' is not exists\n"))]
  }

  /** What one file contributes: a message when it does not exist, else its
      header and painted body. */
  function FileReport(p: FileProfile, gopath: seq<byte>, fs: FileSystem): seq<Item<byte>>
    requires Fits(p, gopath, fs)
  {
    var path := ResolveFileName(p.fileName, gopath);
    if path !in fs then NotExistsMessage(path)
    else Header(p.fileName) + Body(fs[path], p.boundaries)
  }

  /** A missing file contributes only its message, with no colour codes; an
      existing one contributes the coloured header and body, whose text is
      the name, its underline and the file's bytes, each followed by a
      newline. */
  lemma FileReportText(p: FileProfile, gopath: seq<byte>, fs: FileSystem)
    requires Fits(p, gopath, fs)
    ensures var path := ResolveFileName(p.fileName, gopath);
      path !in fs ==>
        Codes(FileReport(p, gopath, fs)) == [] &&
        Strip(FileReport(p, gopath, fs)) == Ascii("File '") + path + Ascii("' is not exists\n")
    ensures var path := ResolveFileName(p.fileName, gopath);
      path in fs && Ascending(p.boundaries) ==>
        Strip(FileReport(p, gopath, fs)) ==
          p.fileName + [Newline] + Repeat(Tilde, |p.fileName|) + [Newline] + fs[path] + [Newline]
  {
    var path := ResolveFileName(p.fileName, gopath);
    if path !in fs {
      var m := Text(Ascii("File '") + path + Ascii("' is not exists\n"));
      StripCons(m, []);
      assert NotExistsMessage(path) == [m] + [];
    } else if Ascending(p.boundaries) {
      HeaderUnderline(p.fileName);
      BodyRoundTrip(fs[path], p.boundaries);
      StripAppend(Header(p.fileName), Body(fs[path], p.boundaries));
    }
  }

  /** What each file of a profile contributes, in the order of the profile. */
  function Reports(profiles: seq<FileProfile>, gopath: seq<byte>, fs: FileSystem): seq<seq<Item<byte>>>
    requires Readable(profiles, gopath, fs)
  {
    seq(|profiles|, i requires 0 <= i < |profiles| => FileReport(profiles[i], gopath, fs))
  }

  /** The pieces written one after the other. */
  function Concat<T>(pieces: seq<seq<T>>): seq<T>
  {
    if pieces == [] then [] else Concat(pieces[..|pieces| - 1]) + pieces[|pieces| - 1]
  }

  /** Writing piece i after the first i pieces writes the first i + 1. */
  lemma ConcatStep<T>(start: seq<T>, before: seq<T>, after: seq<T>, pieces: seq<seq<T>>, i: nat)
    requires i < |pieces|
    requires before == start + Concat(pieces[..i]) && after == before + pieces[i]
    ensures after == start + Concat(pieces[..i + 1])
  {
    assert pieces[..i + 1][..i] == pieces[..i];
    assert (start + Concat(pieces[..i])) + pieces[i] == start + (Concat(pieces[..i]) + pieces[i]);
  }

  /** One turn of the loop of printCoverForDir. */
  method WriteProfile(out: Writer, p: FileProfile, gopath: seq<byte>, fs: FileSystem)
    requires Fits(p, gopath, fs)
    modifies out
    ensures out.written == old(out.written) + FileReport(p, gopath, fs)
  {
    var fileName := ResolveFileName(p.fileName, gopath);
    if fileName !in fs {
      out.Write(NotExistsMessage(fileName));
    } else {
      WriteFileCover(out, p.fileName, fs[fileName], p.boundaries);
    }
  }

  /** The loop of printCoverForDir over the files of a profile: the output
      grows by each file's contribution, in the order of the profile. */
  method PrintCoverForDir(out: Writer, profiles: seq<FileProfile>, gopath: seq<byte>, fs: FileSystem)
    requires Readable(profiles, gopath, fs)
    modifies out
    ensures out.written == old(out.written) + Concat(Reports(profiles, gopath, fs))
  {
    ghost var parts := Reports(profiles, gopath, fs);
    for i := 0 to |profiles|
      invariant out.written == old(out.written) + Concat(parts[..i])
    {
      ghost var before := out.written;
      WriteProfile(out, profiles[i], gopath, fs);
      ConcatStep(old(out.written), before, out.written, parts, i);
    }
    assert parts[..|profiles|] == parts;
  }

  // ---------------------------------------------------------------------
  // Directories with tests
  // ---------------------------------------------------------------------

  const DotSlash: seq<byte> := [46, 47]

  /** A path ending in "_test.go". */
  predicate IsTestFile(path: seq<byte>)
  {
    var suffix := Ascii("_test.go");
    |suffix| <= |path| && path[|path| - |suffix|..] == suffix
  }

  /** The directories (as dirOf names them) of the test files in one walk. */
  function DirsOf(paths: seq<seq<byte>>, dirOf: seq<byte> -> seq<byte>): set<seq<byte>>
  {
    if paths == [] then {}
    else
      var last := paths[|paths| - 1];
      DirsOf(paths[..|paths| - 1], dirOf) + (if IsTestFile(last) then {dirOf(last)} else {})
  }

  /** The directories of the test files over the walks of all roots. */
  function TestDirs(walks: seq<seq<seq<byte>>>, dirOf: seq<byte> -> seq<byte>): set<seq<byte>>
  {
    if walks == [] then {}
    else TestDirs(walks[..|walks| - 1], dirOf) + DirsOf(walks[|walks| - 1], dirOf)
  }

  lemma {:induction false} DirsOfMembers(paths: seq<seq<byte>>, dirOf: seq<byte> -> seq<byte>, d: seq<byte>)
    ensures d in DirsOf(paths, dirOf) <==> exists j :: 0 <= j < |paths| && IsTestFile(paths[j]) && d == dirOf(paths[j])
  {
    if paths != [] {
      DirsOfMembers(paths[..|paths| - 1], dirOf, d);
    }
  }

  /** A directory is collected exactly when some walked path in it is a test
      file; so walking a root twice collects nothing new. */
  lemma {:induction false} TestDirsMembers(walks: seq<seq<seq<byte>>>, dirOf: seq<byte> -> seq<byte>, d: seq<byte>)
    ensures d in TestDirs(walks, dirOf) <==>
              exists i, j :: 0 <= i < |walks| && 0 <= j < |walks[i]| && IsTestFile(walks[i][j]) && d == dirOf(walks[i][j])
  {
    if walks != [] {
      var last := |walks| - 1;
      TestDirsMembers(walks[..last], dirOf, d);
      DirsOfMembers(walks[last], dirOf, d);
      if d in DirsOf(walks[last], dirOf) {
        var j :| 0 <= j < |walks[last]| && IsTestFile(walks[last][j]) && d == dirOf(walks[last][j]);
        assert 0 <= last < |walks| && 0 <= j < |walks[last]|;
      }
    }
  }

  lemma SameRootTwice(walks: seq<seq<seq<byte>>>, dirOf: seq<byte> -> seq<byte>, k: nat)
    requires k < |walks|
    ensures TestDirs(walks + [walks[k]], dirOf) == TestDirs(walks, dirOf)
  {
    assert (walks + [walks[k]])[..|walks|] == walks;
    forall d | d in DirsOf(walks[k], dirOf)
      ensures d in TestDirs(walks, dirOf)
    {
      DirsOfMembers(walks[k], dirOf, d);
      var j :| 0 <= j < |walks[k]| && IsTestFile(walks[k][j]) && d == dirOf(walks[k][j]);
      TestDirsMembers(walks, dirOf, d);
    }
  }

  /** getDirsWithTests: collect the directories of the test files found by
      walking each root, each directory once, and prefix each with "./". The
      order is that of Go's map iteration, which is unspecified. */
  method GetDirsWithTests(walks: seq<seq<seq<byte>>>, dirOf: seq<byte> -> seq<byte>) returns (result: seq<seq<byte>>)
    ensures |result| == |TestDirs(walks, dirOf)|
    ensures forall i :: 0 <= i < |result| ==>
              |result[i]| >= 2 && result[i][..2] == DotSlash && result[i][2..] in TestDirs(walks, dirOf)
    ensures forall d :: d in TestDirs(walks, dirOf) ==> DotSlash + d in result
    ensures forall i, j :: 0 <= i < j < |result| ==> result[i] != result[j]
    ensures walks == [] ==> result == []
  {
    var dirs := CollectTestDirs(walks, dirOf);
    result := PrefixEach(dirs);
  }

  /** The walking loops of getDirsWithTests: the set of directories of test
      files, each kept once as a key of the dirs map. */
  method CollectTestDirs(walks: seq<seq<seq<byte>>>, dirOf: seq<byte> -> seq<byte>) returns (dirs: set<seq<byte>>)
    ensures dirs == TestDirs(walks, dirOf)
  {
    dirs := {};
    for r := 0 to |walks|
      invariant dirs == TestDirs(walks[..r], dirOf)
    {
      var paths := walks[r];
      for p := 0 to |paths|
        invariant dirs == TestDirs(walks[..r], dirOf) + DirsOf(paths[..p], dirOf)
      {
        if IsTestFile(paths[p]) {
          dirs := dirs + {dirOf(paths[p])};
        }
        assert paths[..p + 1][..p] == paths[..p];
      }
      assert paths[..|paths|] == paths;
      assert walks[..r + 1][..r] == walks[..r];
    }
    assert walks[..|walks|] == walks;
  }

  /** The last loop of getDirsWithTests: every directory of the set, prefixed
      with "./", once each, in the unspecified order of Go's map iteration. */
  method PrefixEach(dirs: set<seq<byte>>) returns (result: seq<seq<byte>>)
    ensures |result| == |dirs|
    ensures forall i :: 0 <= i < |result| ==>
              |result[i]| >= 2 && result[i][..2] == DotSlash && result[i][2..] in dirs
    ensures forall d :: d in dirs ==> DotSlash + d in result
    ensures forall i, j :: 0 <= i < j < |result| ==> result[i] != result[j]
  {
    result := [];
    ghost var taken: seq<seq<byte>> := [];
    var remaining := dirs;
    while remaining != {}
      invariant remaining <= dirs
      invariant |taken| == |result| && |taken| + |remaining| == |dirs|
      invariant forall i :: 0 <= i < |taken| ==> taken[i] in dirs && taken[i] !in remaining && result[i] == DotSlash + taken[i]
      invariant forall d :: d in dirs && d !in remaining ==> d in taken
      invariant forall i, j :: 0 <= i < j < |taken| ==> taken[i] != taken[j]
      decreases |remaining|
    {
      var dir :| dir in remaining;
      result := result + [DotSlash + dir];
      taken := taken + [dir];
      remaining := remaining - {dir};
    }
    forall i, j | 0 <= i < j < |result|
      ensures result[i] != result[j]
    {
      assert result[i][2..] == taken[i] && result[j][2..] == taken[j];
    }
    forall d | d in dirs
      ensures DotSlash + d in result
    {
      var i :| 0 <= i < |taken| && taken[i] == d;
      assert result[i] == DotSlash + d;
    }
  }

}

/** The string-slice helpers of utils.go. A Go string is a sequence of bytes;
    the helpers only compare elements, so they are stated here for sequences of
    any element type (bytes or characters alike). */
module Utils {

  /** strings.HasPrefix(s, p) */
  predicate HasPrefix<T(==)>(s: seq<T>, p: seq<T>)
  {
    |p| <= |s| && s[..|p|] == p
  }

  /** sub stands in s from position i on. */
  predicate OccursAt<T(==)>(s: seq<T>, sub: seq<T>, i: int)
  {
    0 <= i && i + |sub| <= |s| && s[i..i + |sub|] == sub
  }

  /** strings.Contains(s, sub): sub occurs at some position of s. */
  predicate Contains<T(==)>(s: seq<T>, sub: seq<T>)
  {
    exists i :: 0 <= i <= |s| - |sub| && OccursAt(s, sub, i)
  }

  /** isSliceInString: walks the slice and answers true at the first element
      contained in src. */
  function IsSliceInString<T(==)>(src: seq<T>, slice: seq<seq<T>>): (r: bool)
    ensures r <==> exists k :: 0 <= k < |slice| && Contains(src, slice[k])
  {
    if slice == [] then false
    else if Contains(src, slice[0]) then true
    else
      var rest := IsSliceInString(src, slice[1..]);
      assert forall k :: 1 <= k < |slice| ==> slice[k] == slice[1..][k - 1];
      rest
  }

  /** isSliceInStringPrefix: walks the slice and answers true at the first
      element that is a prefix of src. */
  function IsSliceInStringPrefix<T(==)>(src: seq<T>, slice: seq<seq<T>>): (r: bool)
    ensures r <==> exists k :: 0 <= k < |slice| && HasPrefix(src, slice[k])
  {
    if slice == [] then false
    else if HasPrefix(src, slice[0]) then true
    else
      var rest := IsSliceInStringPrefix(src, slice[1..]);
      assert forall k :: 1 <= k < |slice| ==> slice[k] == slice[1..][k - 1];
      rest
  }

  /** A prefix is a substring, so a prefix match is also a substring match. */
  lemma PrefixMatchIsSubstringMatch<T>(src: seq<T>, slice: seq<seq<T>>)
    ensures IsSliceInStringPrefix(src, slice) ==> IsSliceInString(src, slice)
  {
    if IsSliceInStringPrefix(src, slice) {
      var k :| 0 <= k < |slice| && HasPrefix(src, slice[k]);
      assert OccursAt(src, slice[k], 0);
      assert Contains(src, slice[k]);
    }
  }

  /** The table cases of isSliceInString's test. */
  lemma IsSliceInStringExamples()
    ensures IsSliceInString("one/file.go", ["one.go", "file.go"])
    ensures IsSliceInString("path/path/file.go", ["one.go", "path/file.go"])
    ensures !IsSliceInString("one/file.go", ["one.go", "two.go"])
    ensures !IsSliceInString("one/file.go", [])
  {
    var s := "one/file.go";
    assert OccursAt(s, "file.go", 4);
    assert Contains(s, "file.go");
    var t := "path/path/file.go";
    assert OccursAt(t, "path/file.go", 5);
    assert Contains(t, "path/file.go");
    forall i | 0 <= i <= |s| - 6
      ensures !OccursAt(s, "one.go", i) && !OccursAt(s, "two.go", i)
    {
      assert s[i..i + 6][0] == s[i] && s[i..i + 6][3] == s[i + 3];
    }
  }

  /** The table cases of isSliceInStringPrefix's test. */
  lemma IsSliceInStringPrefixExamples()
    ensures !IsSliceInStringPrefix("one/file.go", ["vendor", "Godeps"])
    ensures IsSliceInStringPrefix("vendor/path/file.go", ["vendor", "Godeps"])
    ensures IsSliceInStringPrefix("Godeps/path/file.go", ["vendor", "Godeps"])
    ensures !IsSliceInStringPrefix("one/file.go", [])
  {
    assert "one/file.go"[..6][0] == 'o';
    assert "vendor/path/file.go"[..6] == "vendor";
    assert "Godeps/path/file.go"[..6] == "Godeps";
  }

  /** The non-empty items of a slice, in their order. */
  function NonEmpty<T>(items: seq<seq<T>>): seq<seq<T>>
  {
    if items == [] then []
    else (if |items[0]| > 0 then [items[0]] else []) + NonEmpty(items[1..])
  }

  /** Filtering distributes over concatenation: the original order is kept. */
  lemma {:induction false} NonEmptyAppend<T>(a: seq<seq<T>>, b: seq<seq<T>>)
    ensures NonEmpty(a + b) == NonEmpty(a) + NonEmpty(b)
  {
    if a == [] {
      assert a + b == b;
    } else {
      assert (a + b)[0] == a[0];
      assert (a + b)[1..] == a[1..] + b;
      NonEmptyAppend(a[1..], b);
    }
  }

  /** Exactly the non-empty items survive, each as often as it occurs. */
  lemma {:induction false} NonEmptyKeepsExactlyNonEmpty<T>(items: seq<seq<T>>)
    ensures multiset(NonEmpty(items)) == multiset(items)[[] := 0]
    ensures forall x :: x in NonEmpty(items) <==> x in items && |x| > 0
  {
    if items != [] {
      NonEmptyKeepsExactlyNonEmpty(items[1..]);
      assert items == [items[0]] + items[1..];
      assert multiset(items) == multiset([items[0]]) + multiset(items[1..]);
    }
  }

  /** Filtering twice is filtering once, and never lengthens the slice. */
  lemma {:induction false} NonEmptyIdempotent<T>(items: seq<seq<T>>)
    ensures NonEmpty(NonEmpty(items)) == NonEmpty(items)
    ensures |NonEmpty(items)| <= |items|
  {
    if items != [] {
      NonEmptyIdempotent(items[1..]);
      var head := if |items[0]| > 0 then [items[0]] else [];
      NonEmptyAppend(head, NonEmpty(items[1..]));
    }
  }

  /** grepEmptyStringSlice: appends every non-empty item to the result. */
  method GrepEmptyStringSlice<T>(inSlice: seq<seq<T>>) returns (result: seq<seq<T>>)
    ensures result == NonEmpty(inSlice)
    ensures forall i :: 0 <= i < |result| ==> |result[i]| > 0
  {
    result := [];
    for i := 0 to |inSlice|
      invariant result == NonEmpty(inSlice[..i])
      invariant forall j :: 0 <= j < |result| ==> |result[j]| > 0
    {
      var item := inSlice[i];
      if |item| > 0 {
        result := result + [item];
      }
      assert inSlice[..i + 1] == inSlice[..i] + [item];
      NonEmptyAppend(inSlice[..i], [item]);
    }
    assert inSlice[..|inSlice|] == inSlice;
  }
}

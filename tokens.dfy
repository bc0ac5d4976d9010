/** Abstract colour codes and the stream of text chunks and colour codes that
    both coverage painters write. The escape bytes behind each colour name are
    not modelled: a colour is a token, and text is a sequence of units (bytes
    for the byte-offset painter, runes for the line/column painter). */
module Tokens {

  /** The colour names the painters ask for. */
  datatype Color = Green | Red | Reset | Yellow | BlackHigh

  /** One write: a chunk of text, or one colour code. */
  datatype Item<T> = Text(chunk: seq<T>) | Code(color: Color)

  /** The text that remains when every colour code is deleted. */
  function Strip<T>(items: seq<Item<T>>): seq<T>
  {
    if items == [] then []
    else
      (match items[0]
       case Text(c) => c
       case Code(_) => []) + Strip(items[1..])
  }

  /** The colour codes, in the order they were written. */
  function Codes<T>(items: seq<Item<T>>): seq<Color>
  {
    if items == [] then []
    else
      (match items[0]
       case Text(_) => []
       case Code(c) => [c]) + Codes(items[1..])
  }

  /** What one item contributes to the text and to the codes. */
  lemma StripCons<T>(x: Item<T>, rest: seq<Item<T>>)
    ensures Strip([x] + rest) == (if x.Text? then x.chunk else []) + Strip(rest)
    ensures Codes([x] + rest) == (if x.Code? then [x.color] else []) + Codes(rest)
  {
    assert ([x] + rest)[0] == x;
    assert ([x] + rest)[1..] == rest;
  }

  lemma {:induction false} StripAppend<T>(a: seq<Item<T>>, b: seq<Item<T>>)
    ensures Strip(a + b) == Strip(a) + Strip(b)
  {
    if a == [] {
      assert a + b == b;
    } else {
      assert (a + b)[0] == a[0];
      assert (a + b)[1..] == a[1..] + b;
      StripAppend(a[1..], b);
    }
  }

  lemma {:induction false} CodesAppend<T>(a: seq<Item<T>>, b: seq<Item<T>>)
    ensures Codes(a + b) == Codes(a) + Codes(b)
  {
    if a == [] {
      assert a + b == b;
    } else {
      assert (a + b)[0] == a[0];
      assert (a + b)[1..] == a[1..] + b;
      CodesAppend(a[1..], b);
    }
  }
}

/** Shared vocabulary: optional values, results, bytes and flattening. */
module Common {

  datatype Option<+T> = None | Some(value: T)

  datatype Result<+T, +E> = Ok(value: T) | Err(error: E)

  type pos = n: nat | n >= 1 witness 1

  newtype byte = x: int | 0 <= x < 256

  type Bytes = seq<byte>

  /** An optional value seen as a sequence of at most one element. */
  function ToSeq<T>(o: Option<T>): seq<T> {
    match o
    case None => []
    case Some(v) => [v]
  }

  function Flatten<T>(ss: seq<seq<T>>): seq<T> {
    if ss == [] then [] else ss[0] + Flatten(ss[1..])
  }

  lemma ConcatAssociative<T>(a: seq<T>, b: seq<T>, c: seq<T>)
    ensures (a + b) + c == a + (b + c)
  {
  }

  lemma {:induction false} FlattenAppend<T>(a: seq<seq<T>>, b: seq<seq<T>>)
    ensures Flatten(a + b) == Flatten(a) + Flatten(b)
  {
    if a == [] {
      assert a + b == b;
    } else {
      calc {
        Flatten(a + b);
        { assert (a + b)[0] == a[0] && (a + b)[1..] == a[1..] + b; }
        a[0] + Flatten(a[1..] + b);
        { FlattenAppend(a[1..], b); }
        a[0] + (Flatten(a[1..]) + Flatten(b));
        { ConcatAssociative(a[0], Flatten(a[1..]), Flatten(b)); }
        Flatten(a) + Flatten(b);
      }
    }
  }

  lemma FlattenSnoc<T>(a: seq<seq<T>>, x: seq<T>)
    ensures Flatten(a + [x]) == Flatten(a) + x
  {
    FlattenAppend(a, [x]);
    assert Flatten([x]) == x;
  }

  /** One item of an incoming byte stream. */
  datatype StreamItem = Data(bytes: Bytes) | ReadError

  /** All bytes that arrive before the first read error. */
  function Received(items: seq<StreamItem>): Bytes {
    if items == [] || items[0].ReadError? then [] else items[0].bytes + Received(items[1..])
  }

  predicate Breaks(items: seq<StreamItem>) {
    ReadError in items
  }

  lemma {:induction false} ReceivedSplit(a: seq<StreamItem>, b: seq<StreamItem>)
    requires !Breaks(a)
    ensures Received(a + b) == Received(a) + Received(b)
  {
    if a == [] {
      assert a + b == b;
    } else {
      assert a[0] in a;
      calc {
        Received(a + b);
        { assert (a + b)[0] == a[0] && (a + b)[1..] == a[1..] + b; }
        a[0].bytes + Received(a[1..] + b);
        { ReceivedSplit(a[1..], b); }
        a[0].bytes + (Received(a[1..]) + Received(b));
        { ConcatAssociative(a[0].bytes, Received(a[1..]), Received(b)); }
        Received(a) + Received(b);
      }
    }
  }

  /** What a loop over `items` knows at index i, before any error. */
  lemma ReceivedAt(items: seq<StreamItem>, i: nat)
    requires i < |items| && !Breaks(items[..i])
    ensures items[i].ReadError? ==> Received(items) == Received(items[..i]) && Breaks(items)
    ensures items[i].Data? ==>
      && !Breaks(items[..i + 1])
      && Received(items[..i + 1]) == Received(items[..i]) + items[i].bytes
      && |Received(items[..i + 1])| <= |Received(items)|
  {
    assert items == items[..i] + items[i..];
    ReceivedSplit(items[..i], items[i..]);
    if items[i].Data? {
      assert items[..i + 1] == items[..i] + [items[i]];
      ReceivedSplit(items[..i], [items[i]]);
      assert Received([items[i]]) == items[i].bytes;
    }
  }
}

/** One code that meets the contract of Erasure.dfy: a single parity shard, the exclusive or of
    the data shards. */
module XorCodec {
  import opened Bytes
  import opened Wrappers
  import opened Erasure

  /** Exclusive or of byte `j` of every shard. */
  function Column(shards: seq<ByteString>, j: nat): Byte
    requires forall i :: 0 <= i < |shards| ==> j < |shards[i]|
  {
    if shards == [] then 0
    else Xor(Column(shards[..|shards| - 1], j), shards[|shards| - 1][j])
  }

  function Sum(shards: seq<ByteString>, size: nat): ByteString
    requires forall i :: 0 <= i < |shards| ==> |shards[i]| == size
  {
    seq(size, j requires 0 <= j < size => Column(shards, j))
  }

  function Parity(data: seq<ByteString>): seq<ByteString> {
    if data != [] && Uniform(data) then [Sum(data, |data[0]|)] else []
  }

  /** Length of the present shards. */
  function SizeOf(slots: Slots): nat {
    if slots == [] then 0
    else if slots[|slots| - 1].Some? then |slots[|slots| - 1].value|
    else SizeOf(slots[..|slots| - 1])
  }

  function Filled(slots: Slots, size: nat): seq<ByteString> {
    seq(|slots|, i requires 0 <= i < |slots| => if slots[i].Some? then slots[i].value else Zeros(size))
  }

  /** An absent shard is the sum of all the present ones. */
  function Rebuild(k: nat, slots: Slots): Result<seq<ByteString>, RsError> {
    if !WellSized(slots) || Present(slots) < k then Err(RsError)
    else
      var size := SizeOf(slots);
      SizeOfPresent(slots);
      var sum := Sum(Filled(slots, size), size);
      Ok(seq(|slots|, i requires 0 <= i < |slots| => if slots[i].Some? then slots[i].value else sum))
  }

  function XorOf(k: nat): Codec {
    Codec(d => Parity(d), slots => Rebuild(k, slots))
  }

  lemma {:induction false} SizeOfPresent(slots: Slots)
    requires WellSized(slots)
    ensures forall i :: 0 <= i < |slots| && slots[i].Some? ==> |slots[i].value| == SizeOf(slots)
  {
    if slots == [] {
    } else if slots[|slots| - 1].None? {
      SizeOfPresent(slots[..|slots| - 1]);
    }
  }

  /** Swapping one byte of a column for a zero takes that byte out of the sum. */
  lemma {:induction false} ColumnWithout(a: seq<ByteString>, b: seq<ByteString>, i: nat, j: nat)
    requires i < |a| == |b|
    requires forall x :: 0 <= x < |a| ==> j < |a[x]| && j < |b[x]|
    requires forall x :: 0 <= x < |a| && x != i ==> a[x][j] == b[x][j]
    requires b[i][j] == 0
    ensures Xor(Column(a, j), Column(b, j)) == a[i][j]
  {
    var n := |a| - 1;
    var x, y := Column(a[..n], j), Column(b[..n], j);
    if i == n {
      ColumnSame(a[..n], b[..n], j);
      XorZero(x);
      XorCancels(x, a[n][j]);
      XorCancels(Xor(x, a[n][j]), x);
    } else {
      ColumnWithout(a[..n], b[..n], i, j);
      SharedTerm(x, y, a[n][j]);
    }
  }

  lemma SharedTerm(x: Byte, y: Byte, t: Byte)
    ensures Xor(Xor(x, t), Xor(y, t)) == Xor(x, y)
  {
    XorAssociates(x, t, Xor(y, t));
    XorCancels(t, y);
  }

  lemma {:induction false} ColumnSame(a: seq<ByteString>, b: seq<ByteString>, j: nat)
    requires |a| == |b|
    requires forall x :: 0 <= x < |a| ==> j < |a[x]| && j < |b[x]| && a[x][j] == b[x][j]
    ensures Column(a, j) == Column(b, j)
  {
    if a == [] {
    } else {
      ColumnSame(a[..|a| - 1], b[..|b| - 1], j);
    }
  }

  /** Data and parity add up to zero. */
  lemma CodewordSumsToZero(d: seq<ByteString>, j: nat)
    requires d != [] && Uniform(d) && j < |d[0]|
    ensures var full := d + Parity(d);
            && (forall i :: 0 <= i < |full| ==> |full[i]| == |d[0]|)
            && Column(full, j) == 0
  {
    var full := d + Parity(d);
    assert full[..|d|] == d;
    XorZero(Column(d, j));
  }

  lemma {:induction false} AllPresent(slots: Slots)
    ensures Present(slots) == |slots| <==> forall i :: 0 <= i < |slots| ==> slots[i].Some?
  {
    if slots == [] {
    } else {
      AllPresent(slots[..|slots| - 1]);
    }
  }

  /** With one absent at most, any absent slot is the only one. */
  lemma {:induction false} OneAbsent(slots: Slots, i: nat)
    requires i < |slots| && slots[i].None? && Present(slots) >= |slots| - 1
    ensures forall x :: 0 <= x < |slots| && x != i ==> slots[x].Some?
  {
    var n := |slots| - 1;
    AllPresent(slots[..n]);
    if i == n {
    } else {
      assert slots[..n][i].None?;
      OneAbsent(slots[..n], i);
    }
  }

  lemma RebuildsAbsent(d: seq<ByteString>, slots: Slots, i: nat)
    requires d != [] && Uniform(d) && TakenFrom(slots, d + Parity(d))
    requires i < |slots| && slots[i].None? && Present(slots) >= |slots| - 1
    ensures WellSized(slots) && SizeOf(slots) == |d[0]|
    ensures forall x :: 0 <= x < |slots| ==> |Filled(slots, |d[0]|)[x]| == |d[0]|
    ensures Sum(Filled(slots, |d[0]|), |d[0]|) == (d + Parity(d))[i]
  {
    var full, size := d + Parity(d), |d[0]|;
    assert forall x :: 0 <= x < |full| ==> |full[x]| == size;
    SizeOfPresent(slots);
    OneAbsent(slots, i);
    var other := if i == 0 then 1 else 0;
    assert slots[other].Some?;
    var filled := Filled(slots, size);
    forall j | 0 <= j < size
      ensures Column(filled, j) == full[i][j]
    {
      ColumnWithout(full, filled, i, j);
      CodewordSumsToZero(d, j);
      XorZero(Column(filled, j));
    }
  }

  lemma RebuildsCodeword(k: nat, d: seq<ByteString>, slots: Slots)
    requires 1 <= k == |d| && Uniform(d)
    requires TakenFrom(slots, d + Parity(d)) && Present(slots) >= k
    ensures Rebuild(k, slots) == Ok(d + Parity(d))
  {
    var full, size := d + Parity(d), |d[0]|;
    assert forall x :: 0 <= x < |full| ==> |full[x]| == size;
    assert WellSized(slots);
    var rebuilt := Rebuild(k, slots).value;
    forall i | 0 <= i < |slots|
      ensures rebuilt[i] == full[i]
    {
      if slots[i].None? {
        RebuildsAbsent(d, slots, i);
      }
    }
    assert rebuilt == full;
  }

  /** The contract can be met, for every number of data shards. */
  lemma XorIsCodec(k: nat)
    requires 1 <= k <= 255
    ensures IsCodec(XorOf(k), k, 1)
  {
    var c := XorOf(k);
    forall d | |d| == k && Uniform(d)
      ensures |c.parity(d)| == 1 && Uniform(Codeword(c, d))
    {
    }
    forall d, slots | |d| == k && Uniform(d) && TakenFrom(slots, Codeword(c, d)) && Present(slots) >= k
      ensures c.rebuild(slots) == Ok(Codeword(c, d))
    {
      RebuildsCodeword(k, d, slots);
    }
  }
}

/** The layout of arguments and results in the context's 256-byte buffer, which four pieces of code
    compute on their own: the invoke function that writes arguments, the thunk that reads them and
    writes results, and the two readers of results. */
module CallLayout {
  import opened IR
  import opened Wrappers

  const BUFFER_BYTES: nat := 256
  const MAX_RETURN_VALUES: nat := 16
  const TWO_TO_32: nat := 0x1_0000_0000

  type Byte = b: nat | b < 256

  /** The size of a value on a 64-bit host, which is also its alignment. */
  function Width(t: ValueType): (w: nat)
    requires IsProper(t)
    ensures w == 4 || w == 8 || w == 16
  {
    if t.I32? || t.F32? then 4 else if t.V128? then 16 else 8
  }

  /** Rounding up to a multiple of the width: adding the width less one, and clearing low bits. */
  function Aligned(offset: nat, width: nat): (r: nat)
    requires width == 4 || width == 8 || width == 16
    ensures offset <= r < offset + width && r % width == 0
  {
    if width == 4 then (offset + 3) / 4 * 4
    else if width == 8 then (offset + 7) / 8 * 8
    else (offset + 15) / 16 * 16
  }

  /** The same with a mask of 32 bits, which also clears the upper half of the offset. */
  function Aligned32(offset: nat, width: nat): nat
    requires width == 4 || width == 8 || width == 16
  {
    Aligned(offset, width) % TWO_TO_32
  }

  /** Where the value after the first `n` ones starts looking for its place. */
  function EndOffset(types: seq<ValueType>, n: nat): nat
    requires AllProper(types) && n <= |types|
    decreases n, 0
  {
    if n == 0 then 0 else Offset(types, n - 1) + Width(types[n - 1])
  }

  /** The place of value `n`. */
  function Offset(types: seq<ValueType>, n: nat): nat
    requires AllProper(types) && n < |types|
    decreases n, 1
  {
    Aligned(EndOffset(types, n), Width(types[n]))
  }

  /** Places are naturally aligned, and do not overlap. */
  lemma {:induction false} PlacesDisjoint(types: seq<ValueType>, i: nat, j: nat)
    requires AllProper(types) && i < j < |types|
    ensures Offset(types, i) % Width(types[i]) == 0 && Offset(types, i) + Width(types[i]) <= Offset(types, j)
    decreases j
  {
    if i < j - 1 {
      PlacesDisjoint(types, i, j - 1);
    }
  }

  /** Checking only the start of a place keeps all of it inside the buffer. */
  lemma StartInsideIsInside(types: seq<ValueType>, i: nat)
    requires AllProper(types) && i < |types| && Offset(types, i) < BUFFER_BYTES
    ensures Offset(types, i) + Width(types[i]) <= BUFFER_BYTES
  {
    var o, w := Offset(types, i), Width(types[i]);
    assert o % w == 0;
  }

  /** The limit on results implies that their places are inside the buffer. */
  lemma {:induction false} ResultsFit(types: seq<ValueType>, i: nat)
    requires AllProper(types) && i < |types| <= MAX_RETURN_VALUES
    ensures Offset(types, i) + Width(types[i]) <= 16 * (i + 1) <= BUFFER_BYTES
    decreases i
  {
    var w := Width(types[i]);
    if i > 0 {
      ResultsFit(types, i - 1);
    }
    RoundInside(EndOffset(types, i), w, i);
  }

  lemma RoundInside(end: nat, w: nat, i: nat)
    requires (w == 4 || w == 8 || w == 16) && end <= 16 * i
    ensures Aligned(end, w) <= 16 * i
  {
    if w == 4 {
      assert (end + 3) / 4 <= 4 * i;
    } else if w == 8 {
      assert (end + 7) / 8 <= 2 * i;
    } else {
      assert (end + 15) / 16 <= i;
    }
  }

  ghost predicate AllInside(types: seq<ValueType>)
    requires AllProper(types)
  {
    forall i :: 0 <= i < |types| ==> Offset(types, i) < BUFFER_BYTES
  }

  ghost predicate Sized(types: seq<ValueType>, values: seq<seq<Byte>>)
    requires AllProper(types)
  {
    |values| == |types| && forall i :: 0 <= i < |types| ==> |values[i]| == Width(types[i])
  }

  /** Value `i` is in its place. */
  ghost predicate InPlace(types: seq<ValueType>, buffer: seq<Byte>, i: nat, value: seq<Byte>)
    requires AllProper(types) && i < |types|
  {
    var o := Offset(types, i);
    o + Width(types[i]) <= |buffer| && buffer[o..o + Width(types[i])] == value
  }

  method Store(buffer: array<Byte>, offset: nat, value: seq<Byte>)
    requires offset + |value| <= buffer.Length
    modifies buffer
    ensures buffer[..] == old(buffer[..offset]) + value + old(buffer[offset + |value|..])
  {
    for i := 0 to |value|
      invariant forall k :: 0 <= k < buffer.Length ==>
        buffer[k] == if offset <= k < offset + i then value[k - offset] else old(buffer[k])
    {
      buffer[offset + i] := value[i];
    }
  }

  lemma StoreKeeps(types: seq<ValueType>, before: seq<Byte>, after: seq<Byte>, n: nat, value: seq<Byte>, i: nat,
      other: seq<Byte>)
    requires AllProper(types) && i <= n < |types| && |value| == Width(types[n]) && Offset(types, n) + |value| <= |before|
    requires after == before[..Offset(types, n)] + value + before[Offset(types, n) + |value|..]
    requires if i == n then other == value else InPlace(types, before, i, other)
    ensures InPlace(types, after, i, other)
  {
    hide Offset;
    if i < n {
      PlacesDisjoint(types, i, n);
      SliceKept(before, after, Offset(types, n), value, Offset(types, i), Offset(types, i) + Width(types[i]));
    }
  }

  lemma SliceKept(before: seq<Byte>, after: seq<Byte>, at: nat, value: seq<Byte>, lo: nat, hi: nat)
    requires at + |value| <= |before| && after == before[..at] + value + before[at + |value|..]
    requires lo <= hi <= at
    ensures after[lo..hi] == before[lo..hi]
  {
  }

  /** The invoke function copies the arguments into the buffer; false stands for the out-of-memory
      exception it throws when they do not fit. */
  method CopyArguments(types: seq<ValueType>, values: seq<seq<Byte>>, buffer: array<Byte>) returns (ok: bool)
    requires AllProper(types) && Sized(types, values) && buffer.Length == BUFFER_BYTES
    modifies buffer
    ensures ok <==> AllInside(types)
    ensures ok ==> forall i :: 0 <= i < |types| ==> InPlace(types, buffer[..], i, values[i])
  {
    hide Offset, EndOffset, InPlace;
    var offset := 0;
    assert offset == EndOffset(types, 0) by { StartOffset(types); }
    for n := 0 to |types|
      invariant offset == EndOffset(types, n)
      invariant forall i :: 0 <= i < n ==> Offset(types, i) < BUFFER_BYTES
      invariant forall i :: 0 <= i < n ==> InPlace(types, buffer[..], i, values[i])
    {
      NextOffset(types, n);
      offset := Aligned(offset, Width(types[n]));
      if offset >= BUFFER_BYTES {
        return false;
      }
      StartInsideIsInside(types, n);
      ghost var before := buffer[..];
      Store(buffer, offset, values[n]);
      forall i | 0 <= i <= n ensures InPlace(types, buffer[..], i, values[i]) {
        StoreKeeps(types, before, buffer[..], n, values[n], i, values[i]);
      }
      offset := offset + Width(types[n]);
    }
    return true;
  }

  lemma StartOffset(types: seq<ValueType>)
    requires AllProper(types)
    ensures EndOffset(types, 0) == 0
  {
  }

  lemma NextOffset(types: seq<ValueType>, n: nat)
    requires AllProper(types) && n < |types|
    ensures Offset(types, n) == Aligned(EndOffset(types, n), Width(types[n]))
    ensures EndOffset(types, n + 1) == Offset(types, n) + Width(types[n])
  {
  }

  /** The thunk loads the arguments, with a mask of 32 bits. */
  method LoadArguments(types: seq<ValueType>, buffer: array<Byte>) returns (values: seq<seq<Byte>>)
    requires AllProper(types) && AllInside(types) && buffer.Length == BUFFER_BYTES
    ensures |values| == |types| && forall i :: 0 <= i < |types| ==> InPlace(types, buffer[..], i, values[i])
  {
    hide Offset, EndOffset;
    values := [];
    var offset := 0;
    StartOffset(types);
    for n := 0 to |types|
      invariant offset == EndOffset(types, n) && |values| == n
      invariant forall i :: 0 <= i < n ==> InPlace(types, buffer[..], i, values[i])
    {
      NextOffset(types, n);
      StartInsideIsInside(types, n);
      var place := Aligned32(offset, Width(types[n]));
      values := values + [buffer[place..place + Width(types[n])]];
      offset := place + Width(types[n]);
    }
  }

  /** What the thunk loads is what the caller of the invoke function passed. */
  method PassArguments(types: seq<ValueType>, values: seq<seq<Byte>>, buffer: array<Byte>)
      returns (r: Option<seq<seq<Byte>>>)
    requires AllProper(types) && Sized(types, values) && buffer.Length == BUFFER_BYTES
    modifies buffer
    ensures r == if AllInside(types) then Some(values) else None
  {
    hide Offset;
    var ok := CopyArguments(types, values, buffer);
    if !ok {
      return None;
    }
    var loaded := LoadArguments(types, buffer);
    forall i | 0 <= i < |types| ensures loaded[i] == values[i] {
      assert InPlace(types, buffer[..], i, values[i]) && InPlace(types, buffer[..], i, loaded[i]);
    }
    assert loaded == values;
    return Some(loaded);
  }

  lemma ResultsInside(types: seq<ValueType>)
    requires AllProper(types) && |types| <= MAX_RETURN_VALUES
    ensures AllInside(types)
  {
    hide Offset;
    forall i | 0 <= i < |types| ensures Offset(types, i) < BUFFER_BYTES {
      ResultsFit(types, i);
    }
  }

  /** The function, or the thunk for it, stores results that are not returned directly. The mask is a
      signed byte, extended to the width of the offset. The assertion on the offset holds for every
      function type the validator lets through. */
  method StoreResults(types: seq<ValueType>, values: seq<seq<Byte>>, buffer: array<Byte>)
    requires AllProper(types) && Sized(types, values) && buffer.Length == BUFFER_BYTES && |types| <= MAX_RETURN_VALUES
    modifies buffer
    ensures forall i :: 0 <= i < |types| ==> InPlace(types, buffer[..], i, values[i])
  {
    hide Offset, EndOffset, InPlace;
    ResultsInside(types);
    StartOffset(types);
    var resultOffset := 0;
    for n := 0 to |values|
      invariant resultOffset == EndOffset(types, n)
      invariant forall i :: 0 <= i < n ==> InPlace(types, buffer[..], i, values[i])
    {
      NextOffset(types, n);
      var numBytes := Width(types[n]);
      resultOffset := Aligned(resultOffset, numBytes);
      assert resultOffset < BUFFER_BYTES;
      StartInsideIsInside(types, n);
      ghost var before := buffer[..];
      Store(buffer, resultOffset, values[n]);
      forall i | 0 <= i <= n ensures InPlace(types, buffer[..], i, values[i]) {
        StoreKeeps(types, before, buffer[..], n, values[n], i, values[i]);
      }
      resultOffset := resultOffset + numBytes;
    }
  }

  /** The caller, or the invoke function, loads them again. */
  method LoadResults(types: seq<ValueType>, buffer: array<Byte>) returns (results: seq<seq<Byte>>)
    requires AllProper(types) && buffer.Length == BUFFER_BYTES && |types| <= MAX_RETURN_VALUES
    ensures |results| == |types| && forall i :: 0 <= i < |types| ==> InPlace(types, buffer[..], i, results[i])
  {
    hide Offset, EndOffset;
    ResultsInside(types);
    StartOffset(types);
    results := [];
    var resultOffset := 0;
    for n := 0 to |types|
      invariant resultOffset == EndOffset(types, n) && |results| == n
      invariant forall i :: 0 <= i < n ==> InPlace(types, buffer[..], i, results[i])
    {
      NextOffset(types, n);
      StartInsideIsInside(types, n);
      resultOffset := Aligned(resultOffset, Width(types[n]));
      assert resultOffset < BUFFER_BYTES;
      results := results + [buffer[resultOffset..resultOffset + Width(types[n])]];
      resultOffset := resultOffset + Width(types[n]);
    }
  }

  /** What the caller loads is what the function stored. */
  method PassResults(types: seq<ValueType>, values: seq<seq<Byte>>, buffer: array<Byte>)
      returns (loaded: seq<seq<Byte>>)
    requires AllProper(types) && Sized(types, values) && buffer.Length == BUFFER_BYTES && |types| <= MAX_RETURN_VALUES
    modifies buffer
    ensures loaded == values
  {
    hide Offset;
    StoreResults(types, values, buffer);
    loaded := LoadResults(types, buffer);
    forall i | 0 <= i < |types| ensures loaded[i] == values[i] {
      assert InPlace(types, buffer[..], i, values[i]) && InPlace(types, buffer[..], i, loaded[i]);
    }
  }
}

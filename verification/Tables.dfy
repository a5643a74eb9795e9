/** Tables whose bounds are never compared on access: elements are stored as the difference to
    the address of an out-of-bounds sentinel, so the zeroes past the last element, up to the end
    of the committed pages, read as the sentinel, and everything further is not mapped. */
module Tables {
  import opened Wrappers

  const TWO_TO_64: nat := 0x1_0000_0000_0000_0000

  /** An address in the host process. */
  type Address = a: nat | a < TWO_TO_64

  const ELEMENT_BYTES: nat := 8
  const RESERVED_ELEMENTS: nat := 0x1_0000_0000
  const MAX_TABLE_ELEMS: nat := 0x7fff_ffff

  function Biased(sentinel: Address, element: Address): Address {
    (element + TWO_TO_64 - sentinel) % TWO_TO_64
  }

  function Unbiased(sentinel: Address, value: Address): Address {
    (value + sentinel) % TWO_TO_64
  }

  /** The encoding is invertible, and zero stands for the sentinel alone. */
  lemma BiasInverts(sentinel: Address, x: Address)
    ensures Unbiased(sentinel, Biased(sentinel, x)) == x && Biased(sentinel, Unbiased(sentinel, x)) == x
    ensures Biased(sentinel, x) == 0 <==> x == sentinel
    ensures Unbiased(sentinel, x) == sentinel <==> x == 0
  {
  }

  /** The pages needed for a number of bytes. */
  function NumPages(pageBytes: nat, numBytes: nat): nat
    requires pageBytes > 0
  {
    (numBytes + pageBytes - 1) / pageBytes
  }

  lemma NumPagesExact(pageBytes: nat, numBytes: nat)
    requires pageBytes > 0
    ensures var n := NumPages(pageBytes, numBytes);
            n * pageBytes >= numBytes && (n > 0 ==> (n - 1) * pageBytes < numBytes)
  {
    var n := NumPages(pageBytes, numBytes);
    assert numBytes + pageBytes - 1 == n * pageBytes + (numBytes + pageBytes - 1) % pageBytes;
    assert n > 0 ==> n * pageBytes == (n - 1) * pageBytes + pageBytes;
  }

  lemma NumPagesMonotone(pageBytes: nat, a: nat, b: nat)
    requires pageBytes > 0 && a <= b
    ensures NumPages(pageBytes, a) <= NumPages(pageBytes, b)
  {
    hide NumPages;
    NumPagesExact(pageBytes, a);
    NumPagesExact(pageBytes, b);
    if NumPages(pageBytes, a) > 0 {
      ProductMonotone(NumPages(pageBytes, b), NumPages(pageBytes, a) - 1, pageBytes);
    }
  }

  lemma ProductMonotone(x: nat, y: nat, n: nat)
    ensures x <= y ==> x * n <= y * n
  {
    assert y * n == x * n + (y - x) * n;
  }

  function Repeated(x: Address, n: nat): (r: seq<Address>)
    ensures |r| == n && forall i :: 0 <= i < n ==> r[i] == x
  {
    seq(n, _ => x)
  }

  class Table {
    const sentinel: Address
    const pageElements: nat
    const maximum: nat

    /** The committed part of the reserved address range. */
    var elements: seq<Address>
    var committedPages: nat
    var numElements: nat

    ghost predicate Valid()
      reads this
    {
      && pageElements > 0
      && committedPages == NumPages(pageElements * ELEMENT_BYTES, numElements * ELEMENT_BYTES)
      && |elements| == committedPages * pageElements
      && numElements <= |elements| && numElements <= maximum && numElements <= MAX_TABLE_ELEMS
      && (forall i :: 0 <= i < numElements ==> elements[i] != 0)
      && forall i :: numElements <= i < |elements| ==> elements[i] == 0
    }

    /** The objects in the table. */
    ghost function Contents(): (r: seq<Address>)
      requires Valid()
      reads this
      ensures |r| == numElements && forall i :: 0 <= i < |r| ==> r[i] == Unbiased(sentinel, elements[i])
    {
      seq(numElements, i requires 0 <= i < numElements <= |elements| reads this => Unbiased(sentinel, elements[i]))
    }

    constructor (sentinel: Address, pageElements: nat, maximum: nat)
      requires pageElements > 0
      ensures Valid() && Contents() == []
      ensures this.sentinel == sentinel && this.pageElements == pageElements && this.maximum == maximum
    {
      this.sentinel, this.pageElements, this.maximum := sentinel, pageElements, maximum;
      elements, committedPages, numElements := [], 0, 0;
    }

    /** Reads an element. A fault on a page that is not committed is the same trap. */
    method Get(index: nat) returns (r: Option<Address>)
      requires Valid()
      ensures r == if index < |Contents()| then Some(Contents()[index]) else None
    {
      if index >= RESERVED_ELEMENTS || index >= |elements| {
        return None;
      }
      BiasInverts(sentinel, elements[index]);
      var element := Unbiased(sentinel, elements[index]);
      return if element == sentinel then None else Some(element);
    }

    /** Replaces an element, unless the element replaced is the sentinel. */
    method Set(index: nat, element: Address) returns (replaced: Option<Address>)
      requires Valid() && element != sentinel
      modifies this`elements
      ensures Valid()
      ensures replaced == if index < |old(Contents())| then Some(old(Contents())[index]) else None
      ensures Contents() == if index < |old(Contents())| then old(Contents())[index := element] else old(Contents())
    {
      if index >= RESERVED_ELEMENTS || index >= |elements| {
        return None;
      }
      BiasInverts(sentinel, elements[index]);
      BiasInverts(sentinel, element);
      var previous := Unbiased(sentinel, elements[index]);
      if previous == sentinel {
        return None;
      }
      elements := elements[index := Biased(sentinel, element)];
      return Some(previous);
    }

    /** Does the growth stay within the table's and the implementation's maximum? */
    predicate FitsMaximum(delta: nat)
      reads this
    {
      numElements + delta <= maximum && numElements + delta <= MAX_TABLE_ELEMS
    }

    /** The pages to commit for a growth. */
    function NewPages(delta: nat): int
      requires pageElements > 0
      reads this
    {
      NumPages(pageElements * ELEMENT_BYTES, (numElements + delta) * ELEMENT_BYTES)
      - NumPages(pageElements * ELEMENT_BYTES, numElements * ELEMENT_BYTES)
    }

    /** Stores a value in the elements from the current size up to a new one. */
    method StoreNew(count: nat, value: Address)
      requires numElements <= count <= |elements|
      modifies this`elements
      ensures elements == old(elements)[..numElements] + Repeated(value, count - numElements) + old(elements)[count..]
    {
      for i := numElements to count
        invariant elements == old(elements)[..numElements] + Repeated(value, i - numElements) + old(elements)[i..]
      {
        elements := elements[i := value];
      }
    }

    /** Grows the table and fills the new elements. `commits` is the host's answer when pages are
        to be committed; committed pages are zero. */
    method Grow(delta: nat, element: Address, commits: bool) returns (previous: Option<nat>)
      requires Valid() && element != sentinel
      modifies this
      ensures Valid()
      ensures previous.Some? <==> delta == 0 || (old(FitsMaximum(delta)) && (old(NewPages(delta)) == 0 || commits))
      ensures previous.Some? ==> previous.value == |old(Contents())| && Contents() == old(Contents()) + Repeated(element, delta)
      ensures previous.None? ==> Contents() == old(Contents())
    {
      hide NumPages;
      if delta == 0 {
        return Some(numElements);
      }
      if delta > maximum || numElements > maximum - delta || delta > MAX_TABLE_ELEMS || numElements > MAX_TABLE_ELEMS - delta {
        return None;
      }
      var pageBytes, count := pageElements * ELEMENT_BYTES, numElements + delta;
      var oldPages, newPages := NumPages(pageBytes, numElements * ELEMENT_BYTES), NumPages(pageBytes, count * ELEMENT_BYTES);
      NumPagesMonotone(pageBytes, numElements * ELEMENT_BYTES, count * ELEMENT_BYTES);
      if newPages != oldPages && !commits {
        return None;
      }
      EnoughPages(pageElements, count);
      PagesSum(pageElements, oldPages, newPages);
      elements := elements + Repeated(0, (newPages - oldPages) * pageElements);
      committedPages := newPages;
      BiasInverts(sentinel, element);
      var value := Biased(sentinel, element);
      StoreNew(count, value);
      previous := Some(numElements);
      numElements := count;
    }

    /** A new table with the same elements. */
    method Clone(commits: bool) returns (r: Option<Table>)
      requires Valid()
      ensures r.Some? <==> NumPages(pageElements * ELEMENT_BYTES, numElements * ELEMENT_BYTES) == 0 || commits
      ensures r.Some? ==> fresh(r.value) && r.value.Valid() && r.value.Contents() == Contents() && r.value.sentinel == sentinel
    {
      var table := new Table(sentinel, pageElements, maximum);
      var pages := NumPages(pageElements * ELEMENT_BYTES, numElements * ELEMENT_BYTES);
      if pages != 0 && !commits {
        return None;
      }
      table.elements := Repeated(0, pages * pageElements);
      table.committedPages := pages;
      for i := 0 to numElements
        invariant |table.elements| == |elements| && fresh(table) && unchanged(this)
        invariant table.committedPages == pages && table.numElements == 0
        invariant forall j :: 0 <= j < i ==> table.elements[j] == elements[j]
        invariant forall j :: i <= j < |elements| ==> table.elements[j] == 0
      {
        table.elements := table.elements[i := elements[i]];
      }
      table.numElements := numElements;
      r := Some(table);
    }

    /** Fills a range. It stops with a trap at the first element out of bounds. */
    method Fill(dest: nat, element: Address, num: nat) returns (ok: bool)
      requires Valid() && element != sentinel
      modifies this`elements
      ensures Valid()
      ensures ok <==> num == 0 || dest + num <= |old(Contents())|
      ensures var n := if ok then num else Room(|old(Contents())|, dest);
              Contents() == Overwritten(old(Contents()), dest, Repeated(element, n))
    {
      for i := 0 to num
        invariant Valid() && (i == 0 || dest + i <= numElements)
        invariant Contents() == Overwritten(old(Contents()), dest, Repeated(element, i))
      {
        var replaced := Set(dest + i, element);
        if replaced.None? {
          assert i == Room(numElements, dest);
          return false;
        }
      }
      return true;
    }
  }

  lemma EnoughPages(pageElements: nat, count: nat)
    requires pageElements > 0
    ensures NumPages(pageElements * ELEMENT_BYTES, count * ELEMENT_BYTES) * pageElements >= count
  {
    var n := NumPages(pageElements * ELEMENT_BYTES, count * ELEMENT_BYTES);
    NumPagesExact(pageElements * ELEMENT_BYTES, count * ELEMENT_BYTES);
    assert n * (pageElements * ELEMENT_BYTES) == n * pageElements * ELEMENT_BYTES;
  }

  lemma PagesSum(pageElements: nat, oldPages: nat, newPages: nat)
    requires oldPages <= newPages
    ensures oldPages * pageElements + (newPages - oldPages) * pageElements == newPages * pageElements
    ensures (newPages - oldPages) * pageElements >= 0
  {
  }

  /** How many elements lie at or after an index. */
  function Room(size: nat, index: nat): nat {
    if index <= size then size - index else 0
  }

  /** A sequence with a part overwritten. */
  function Overwritten(s: seq<Address>, at: nat, part: seq<Address>): (r: seq<Address>)
    requires part == [] || at + |part| <= |s|
    ensures |r| == |s|
    ensures forall i :: 0 <= i < |s| ==> r[i] == if at <= i < at + |part| then part[i - at] else s[i]
  {
    if part == [] then s else s[..at] + part + s[at + |part|..]
  }

  /** Copies between tables, or within one, in the direction that reads every element before it is
      overwritten. */
  method TableCopy(dest: Table, source: Table, destOffset: nat, sourceOffset: nat, num: nat) returns (ok: bool)
    requires dest.Valid() && source.Valid() && dest.sentinel == source.sentinel
    modifies dest`elements
    ensures dest.Valid()
    ensures ok <==> num == 0 || (sourceOffset + num <= |old(source.Contents())| && destOffset + num <= |old(dest.Contents())|)
    ensures ok && num > 0 ==>
              dest.Contents() == Overwritten(old(dest.Contents()), destOffset, old(source.Contents())[sourceOffset..sourceOffset + num])
    ensures num == 0 || (!ok && sourceOffset < destOffset) ==> dest.Contents() == old(dest.Contents())
    ensures !ok && sourceOffset >= destOffset ==>
              var n := Min(Room(|old(source.Contents())|, sourceOffset), Room(|old(dest.Contents())|, destOffset));
              dest.Contents() == if n == 0 then old(dest.Contents())
                                 else Overwritten(old(dest.Contents()), destOffset, old(source.Contents())[sourceOffset..sourceOffset + n])
  {
    if sourceOffset < destOffset {
      ok := CopyDescending(dest, source, destOffset, sourceOffset, num);
    } else {
      ok := CopyAscending(dest, source, destOffset, sourceOffset, num);
    }
  }

  function Min(a: nat, b: nat): nat {
    if a < b then a else b
  }

  /** The destination after the elements from `from` to `to` of the range have been copied. */
  ghost function Copied(dest: seq<Address>, source: seq<Address>, destOffset: nat, sourceOffset: nat, from: nat,
      to: nat): seq<Address>
    requires from <= to && (from == to || (sourceOffset + to <= |source| && destOffset + to <= |dest|))
  {
    if from == to then dest else Overwritten(dest, destOffset + from, source[sourceOffset + from..sourceOffset + to])
  }

  lemma CopiedAt(dest: seq<Address>, source: seq<Address>, destOffset: nat, sourceOffset: nat, from: nat, to: nat,
      i: nat)
    requires from <= to && (from == to || (sourceOffset + to <= |source| && destOffset + to <= |dest|)) && i < |dest|
    ensures |Copied(dest, source, destOffset, sourceOffset, from, to)| == |dest|
    ensures Copied(dest, source, destOffset, sourceOffset, from, to)[i]
         == if destOffset + from <= i < destOffset + to then source[i - destOffset + sourceOffset] else dest[i]
  {
  }

  lemma CopyOneMore(dest: seq<Address>, source: seq<Address>, destOffset: nat, sourceOffset: nat, from: nat, to: nat,
      low: nat, high: nat, k: nat)
    requires low <= high && low <= from <= to <= high && sourceOffset + high <= |source| && destOffset + high <= |dest|
    requires (k == to && low == from && high == to + 1) || (k + 1 == from && low == k && high == to)
    ensures Copied(dest, source, destOffset, sourceOffset, from, to)[destOffset + k := source[sourceOffset + k]]
         == Copied(dest, source, destOffset, sourceOffset, low, high)
  {
    var a := Copied(dest, source, destOffset, sourceOffset, from, to)[destOffset + k := source[sourceOffset + k]];
    var b := Copied(dest, source, destOffset, sourceOffset, low, high);
    forall i | 0 <= i < |dest| ensures a[i] == b[i] {
      CopiedAt(dest, source, destOffset, sourceOffset, from, to, i);
      CopiedAt(dest, source, destOffset, sourceOffset, low, high, i);
    }
  }

  method CopyElement(dest: Table, source: Table, destIndex: nat, sourceIndex: nat) returns (ok: bool)
    requires dest.Valid() && source.Valid() && dest.sentinel == source.sentinel
    modifies dest`elements
    ensures dest.Valid() && source.Valid() && (source != dest ==> source.Contents() == old(source.Contents()))
    ensures ok <==> sourceIndex < |old(source.Contents())| && destIndex < |old(dest.Contents())|
    ensures dest.Contents() == if ok then old(dest.Contents())[destIndex := old(source.Contents())[sourceIndex]]
                               else old(dest.Contents())
  {
    var element := source.Get(sourceIndex);
    if element.None? {
      return false;
    }
    NotSentinel(source, sourceIndex);
    var replaced := dest.Set(destIndex, element.value);
    ok := replaced.Some?;
  }

  method CopyDescending(dest: Table, source: Table, destOffset: nat, sourceOffset: nat, num: nat) returns (ok: bool)
    requires dest.Valid() && source.Valid() && dest.sentinel == source.sentinel && sourceOffset < destOffset
    modifies dest`elements
    ensures dest.Valid()
    ensures ok <==> num == 0 || (sourceOffset + num <= |old(source.Contents())| && destOffset + num <= |old(dest.Contents())|)
    ensures dest.Contents() == if ok then Copied(old(dest.Contents()), old(source.Contents()), destOffset, sourceOffset, 0, num)
                               else old(dest.Contents())
  {
    hide Copied, NumPages;
    ghost var d, s := dest.Contents(), source.Contents();
    ghost var fits := sourceOffset + num <= |s| && destOffset + num <= |d|;
    CopiedNothing(d, s, destOffset, sourceOffset, num);
    CopiedNothing(d, s, destOffset, sourceOffset, 0);
    for i := num downto 0
      invariant dest.Valid() && source.Valid() && (i < num ==> fits)
      invariant dest.Contents() == if i < num then Copied(d, s, destOffset, sourceOffset, i, num) else d
      invariant source != dest ==> source.Contents() == s
    {
      assert i + 1 < num || i + 1 == num;
      ghost var now := dest.Contents();
      if sourceOffset + i < |s| && i + 1 < num {
        CopiedAt(d, s, destOffset, sourceOffset, i + 1, num, if source == dest then sourceOffset + i else destOffset);
      }
      ok := CopyElement(dest, source, destOffset + i, sourceOffset + i);
      if !ok {
        return;
      }
      CopyOneMore(d, s, destOffset, sourceOffset, i + 1, num, i, num, i);
    }
    return true;
  }

  lemma CopiedNothing(dest: seq<Address>, source: seq<Address>, destOffset: nat, sourceOffset: nat, n: nat)
    ensures Copied(dest, source, destOffset, sourceOffset, n, n) == dest
  {
  }

  lemma NotSentinel(t: Table, i: nat)
    requires t.Valid() && i < |t.Contents()|
    ensures t.Contents()[i] != t.sentinel
  {
    BiasInverts(t.sentinel, t.elements[i]);
  }

  method CopyAscending(dest: Table, source: Table, destOffset: nat, sourceOffset: nat, num: nat) returns (ok: bool)
    requires dest.Valid() && source.Valid() && dest.sentinel == source.sentinel && destOffset <= sourceOffset
    modifies dest`elements
    ensures dest.Valid()
    ensures ok <==> num == 0 || (sourceOffset + num <= |old(source.Contents())| && destOffset + num <= |old(dest.Contents())|)
    ensures var n := if ok then num else Min(Room(|old(source.Contents())|, sourceOffset), Room(|old(dest.Contents())|, destOffset));
            dest.Contents() == Copied(old(dest.Contents()), old(source.Contents()), destOffset, sourceOffset, 0, n)
  {
    hide Copied, NumPages;
    ghost var d, s := dest.Contents(), source.Contents();
    CopiedNothing(d, s, destOffset, sourceOffset, 0);
    for i := 0 to num
      invariant dest.Valid() && source.Valid()
      invariant i > 0 ==> sourceOffset + i <= |s| && destOffset + i <= |d|
      invariant dest.Contents() == Copied(d, s, destOffset, sourceOffset, 0, i)
      invariant source != dest ==> source.Contents() == s
    {
      if sourceOffset + i < |s| && source == dest {
        CopiedAt(d, s, destOffset, sourceOffset, 0, i, sourceOffset + i);
      }
      ok := CopyElement(dest, source, destOffset + i, sourceOffset + i);
      if !ok {
        return;
      }
      CopyOneMore(d, s, destOffset, sourceOffset, 0, i, 0, i + 1, i);
    }
    return true;
  }

  datatype InitResult = Initialized | SegmentTrap | TableTrap

  /** Copies part of an element segment. The segment's bound is checked before the table's. */
  method InitElemSegment(table: Table, segment: seq<Address>, destOffset: nat, sourceOffset: nat, num: nat)
      returns (r: InitResult)
    requires table.Valid() && table.sentinel !in segment
    modifies table`elements
    ensures table.Valid()
    ensures r.Initialized? <==> num == 0 || (sourceOffset + num <= |segment| && destOffset + num <= |old(table.Contents())|)
    ensures !r.Initialized? ==> (r.SegmentTrap? <==> Room(|segment|, sourceOffset) <= Room(|old(table.Contents())|, destOffset))
    ensures var n := if r.Initialized? then num else Min(Room(|segment|, sourceOffset), Room(|old(table.Contents())|, destOffset));
            table.Contents() == Copied(old(table.Contents()), segment, destOffset, sourceOffset, 0, n)
  {
    hide Copied, NumPages;
    ghost var d := table.Contents();
    CopiedNothing(d, segment, destOffset, sourceOffset, 0);
    for i := 0 to num
      invariant table.Valid() && (i > 0 ==> sourceOffset + i <= |segment| && destOffset + i <= |d|)
      invariant table.Contents() == Copied(d, segment, destOffset, sourceOffset, 0, i)
    {
      if i > 0 {
        CopiedAt(d, segment, destOffset, sourceOffset, 0, i, destOffset);
      }
      if sourceOffset + i >= |segment| {
        return SegmentTrap;
      }
      var replaced := table.Set(destOffset + i, segment[sourceOffset + i]);
      if replaced.None? {
        return TableTrap;
      }
      CopyOneMore(d, segment, destOffset, sourceOffset, 0, i, 0, i + 1, i);
    }
    return Initialized;
  }
}

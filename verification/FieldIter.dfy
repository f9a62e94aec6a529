/** The iterator over a field list: a wrap-around walk that keeps the address of the current field, and
    of the flag or count that goes with it, by adding relative offsets, and counts the required fields
    passed. */
module FieldIter {

  const SIZE_MAX: nat := 0xffff_ffff
  const ADDRESS_SIZE: nat := 8

  datatype Allocation = Static | Pointer | Callback

  datatype Rule = Required | Optional | Repeated | Oneof

  /** An entry of the field list.  `dataOffset` is relative to the end of the previous field and
      `sizeOffset` to the field itself: where its has-flag, its count or the tag of its union is. */
  datatype Entry = Entry(tag: nat, isExtension: bool, allocation: Allocation, rule: Rule,
                         dataOffset: nat, sizeOffset: int, dataSize: nat, arraySize: nat)

  type Entries = seq<Entry>

  // ---- the layout of the struct ----

  /** Where the compiler put a field: its offset in the struct and its size, and the offset of its flag
      (its own where it has none).  Members of one union share a number. */
  datatype Member = Member(offset: nat, size: nat, flag: nat, union: nat)

  predicate SameUnion(es: Entries, ms: seq<Member>, i: nat)
    requires 0 < i < |es| == |ms|
  {
    es[i - 1].rule.Oneof? && es[i].rule.Oneof? && ms[i - 1].union == ms[i].union
  }

  /** The offset macros: the first field, a further member of a union, any other field. */
  function DataOffset(es: Entries, ms: seq<Member>, i: nat): int
    requires i < |es| == |ms|
  {
    if i == 0 then ms[0].offset
    else if SameUnion(es, ms, i) then SIZE_MAX
    else ms[i].offset - ms[i - 1].offset - ms[i - 1].size
  }

  /** The size an entry stands for in the struct */
  function StructSize(e: Entry): nat {
    if e.allocation.Static? && e.rule.Repeated? then e.dataSize * e.arraySize
    else if e.allocation.Pointer? then ADDRESS_SIZE
    else e.dataSize
  }

  predicate LaidOut(es: Entries, ms: seq<Member>) {
    && |es| == |ms|
    && forall i :: 0 <= i < |es| ==>
         && es[i].tag != 0
         && es[i].dataOffset == DataOffset(es, ms, i)
         && StructSize(es[i]) == ms[i].size
         && es[i].sizeOffset == ms[i].flag - ms[i].offset
         && (i > 0 && SameUnion(es, ms, i) ==> ms[i].offset == ms[i - 1].offset && ms[i].flag == ms[i - 1].flag)
         && (i > 0 && !SameUnion(es, ms, i) ==> es[i].dataOffset < SIZE_MAX)
  }

  // ---- where the walk is ----

  predicate InsideUnion(es: Entries, i: nat)
    requires 0 < i < |es|
  {
    es[i - 1].rule.Oneof? && es[i].rule.Oneof? && es[i].dataOffset == SIZE_MAX
  }

  /** The address reached by walking to entry i */
  function Walked(es: Entries, i: nat): nat
    requires i < |es|
  {
    if i == 0 then es[0].dataOffset
    else if InsideUnion(es, i) then Walked(es, i - 1)
    else Walked(es, i - 1) + StructSize(es[i - 1]) + es[i].dataOffset
  }

  /** The address of the flag; inside a union it is not computed again. */
  function FlagWalked(es: Entries, i: nat): int
    requires i < |es|
  {
    if i > 0 && InsideUnion(es, i) then FlagWalked(es, i - 1) else Walked(es, i) + es[i].sizeOffset
  }

  /** The walk arrives at every field and at its flag: arrays, pointers and unions are stepped over
      correctly. */
  lemma {:induction false} WalkedIsOffset(es: Entries, ms: seq<Member>, i: nat)
    requires LaidOut(es, ms) && i < |es|
    ensures Walked(es, i) == ms[i].offset && FlagWalked(es, i) == ms[i].flag
  {
    if i > 0 {
      WalkedIsOffset(es, ms, i - 1);
      assert InsideUnion(es, i) <==> SameUnion(es, ms, i);
    }
  }

  /** The number of required entries before i */
  function RequiredBefore(es: Entries, i: nat): (n: nat)
    requires i <= |es|
    ensures n <= i
  {
    if i == 0 then 0 else RequiredBefore(es, i - 1) + if es[i - 1].rule.Required? then 1 else 0
  }

  predicate Matches(e: Entry, tag: nat) {
    e.tag == tag && !e.isExtension
  }

  ghost predicate NoMatch(es: Entries, lo: nat, hi: nat, tag: nat) {
    forall j :: lo <= j < hi && j < |es| ==> !Matches(es[j], tag)
  }

  class FieldIter {
    const entries: Entries
    const dest: nat
    var pos: nat
    var required: nat
    var data: nat
    var flag: int

    /** The walk is at some entry, with its address and its count; or at the end of an empty list. */
    ghost predicate Valid()
      reads this
    {
      && (forall i :: 0 <= i < |entries| ==> entries[i].tag != 0)
      && if entries == [] then pos == 0 && required == 0
         else
           && pos < |entries| && required == RequiredBefore(entries, pos)
           && data == dest + Walked(entries, pos) && flag == dest + FlagWalked(entries, pos)
    }

    constructor Begin(es: Entries, dest: nat)
      requires forall i :: 0 <= i < |es| ==> es[i].tag != 0
      ensures Valid() && pos == 0 && entries == es && this.dest == dest
    {
      entries, this.dest, pos, required := es, dest, 0, 0;
      data := dest + if es == [] then 0 else es[0].dataOffset;
      flag := dest + if es == [] then 0 else es[0].dataOffset + es[0].sizeOffset;
    }

    method Restart() returns (more: bool)
      requires forall i :: 0 <= i < |entries| ==> entries[i].tag != 0
      modifies this
      ensures Valid() && pos == 0 && more == (entries != [])
    {
      pos, required := 0, 0;
      data := dest + if entries == [] then 0 else entries[0].dataOffset;
      flag := data + if entries == [] then 0 else entries[0].sizeOffset;
      return entries != [];
    }

    method PreviousSize(previous: Entry) returns (size: nat)
      ensures size == StructSize(previous)
    {
      size := previous.dataSize;
      if previous.allocation.Static? && previous.rule.Repeated? {
        size := size * previous.arraySize;
      } else if previous.allocation.Pointer? {
        size := ADDRESS_SIZE;
      }
    }

    /** One step; false when the walk is back at the first entry. */
    method Next() returns (more: bool)
      requires Valid()
      modifies this
      ensures Valid() && more == (old(pos) + 1 < |entries|)
      ensures pos == if more then old(pos) + 1 else 0
    {
      if entries == [] {
        return false;
      }
      var previous := entries[pos];
      pos := pos + 1;
      if pos == |entries| {
        var _ := Restart();
        return false;
      }
      if previous.rule.Oneof? && entries[pos].rule.Oneof? && entries[pos].dataOffset == SIZE_MAX {
        return true;
      }
      var size := PreviousSize(previous);
      if previous.rule.Required? {
        required := required + 1;
      }
      data := data + size + entries[pos].dataOffset;
      flag := data + entries[pos].sizeOffset;
      assert Walked(entries, pos) == Walked(entries, pos - 1) + size + entries[pos].dataOffset;
      return true;
    }

    /** Walks to the first entry with the tag, looking at every entry at most once; without one it
        ends where it began.  The end of an empty list bears tag 0. */
    method Find(tag: nat) returns (found: bool)
      requires Valid()
      modifies this
      ensures Valid()
      ensures entries == [] ==> found == (tag == 0)
      ensures entries != [] ==> (found <==> !NoMatch(entries, 0, |entries|, tag))
      ensures entries != [] && found ==>
                && Matches(entries[pos], tag)
                && NoMatch(entries, old(pos), if old(pos) <= pos then pos else |entries|, tag)
                && (pos < old(pos) ==> NoMatch(entries, 0, pos, tag))
      ensures !found ==> pos == old(pos)
    {
      var start := pos;
      if entries == [] {
        return tag == 0;
      }
      ghost var wrapped := false;
      while true
        invariant Valid()
        invariant !wrapped ==> start <= pos && NoMatch(entries, start, pos, tag)
        invariant wrapped ==> pos < start && NoMatch(entries, start, |entries|, tag) && NoMatch(entries, 0, pos, tag)
        decreases if wrapped then 0 else 1, |entries| - pos
      {
        if entries[pos].tag == tag && !entries[pos].isExtension {
          return true;
        }
        var more := Next();
        if !more {
          wrapped := true;
        }
        if pos == start {
          break;
        }
      }
      assert NoMatch(entries, 0, |entries|, tag);
      return false;
    }

    /** The count of all required fields, by walking on to the end from wherever the walk is. */
    method CountRequired() returns (count: nat)
      requires Valid()
      modifies this
      ensures Valid() && count == RequiredBefore(entries, |entries|)
    {
      count := required;
      var last := entries != [] && entries[pos].rule.Required?;
      var more := Next();
      while more
        invariant Valid()
        invariant more ==>
                    0 < pos && count == RequiredBefore(entries, pos - 1) && last == entries[pos - 1].rule.Required?
        invariant !more && entries != [] ==>
                    count == RequiredBefore(entries, |entries| - 1) && last == entries[|entries| - 1].rule.Required?
        invariant entries == [] ==> !more && count == 0 && !last
        decreases if more then |entries| - pos else 0
      {
        count := required;
        last := entries[pos].rule.Required?;
        more := Next();
      }
      if last {
        count := count + 1;
      }
    }
  }
}

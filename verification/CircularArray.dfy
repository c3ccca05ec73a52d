/** The circular dynamic array of shared/dynamic_array/dynamic_array.c, refining a sequence. */
module CircularArray {
  import opened Words

  const INITIAL_CAPACITY: nat := 4
  const GROWTH: nat := 2
  const POINTER_BYTES: nat := 8

  /** Logical index i of a ring: head + i, folded back once. */
  function Fold(head: nat, i: nat, capacity: nat): (k: nat)
    requires head < capacity && i <= capacity
    ensures k < capacity
    ensures head + i < capacity ==> k == head + i
    ensures head + i >= capacity ==> k == head + i - capacity
  {
    if head + i >= capacity then head + i - capacity else head + i
  }

  /** Distinct logical indices occupy distinct cells. */
  lemma FoldInjective(head: nat, i: nat, j: nat, capacity: nat)
    requires head < capacity && i < j < capacity
    ensures Fold(head, i, capacity) != Fold(head, j, capacity)
  {
  }

  class DynamicArray<T(0)> {
    var head: nat
    var count: nat
    var capacity: nat
    var data: array?<T>

    ghost predicate Valid()
      reads this
    {
      if data == null then head == 0 && count == 0 && capacity == 0
      else data.Length == capacity && head < capacity && count <= capacity
    }

    /** The logical sequence. */
    ghost function Contents(): (s: seq<T>)
      requires Valid()
      reads this, data
      ensures |s| == count
    {
      seq(count, i requires 0 <= i < count && Valid() reads this, data => data[Fold(head, i, capacity)])
    }

    constructor ()
      ensures Valid() && data == null && Contents() == []
    {
      head, count, capacity, data := 0, 0, 0, null;
    }

    /** array_init; memory says whether malloc succeeds. */
    method Init(memory: bool) returns (ok: bool)
      modifies this
      ensures Valid() && ok == memory && Contents() == []
      ensures ok ==> data != null && fresh(data) && capacity == INITIAL_CAPACITY
      ensures !ok ==> data == null
    {
      head, count := 0, 0;
      if memory {
        capacity := INITIAL_CAPACITY;
        data := new T[INITIAL_CAPACITY];
        return true;
      }
      capacity, data := 0, null;
      return false;
    }

    method Get(index: nat) returns (r: Option<T>)
      requires Valid()
      ensures r == if index < |Contents()| then Some(Contents()[index]) else None
    {
      if data == null || index >= count {
        return None;
      }
      return Some(data[Fold(head, index, capacity)]);
    }

    method Set(index: nat, item: T) returns (ok: bool)
      requires Valid()
      modifies data
      ensures Valid() && ok == (index < old(|Contents()|))
      ensures Contents() == if ok then old(Contents())[index := item] else old(Contents())
    {
      if data == null || index >= count {
        return false;
      }
      ghost var s := Contents();
      data[Fold(head, index, capacity)] := item;
      forall i | 0 <= i < count && i != index ensures Contents()[i] == s[i] {
        FoldInjective(head, if i < index then i else index, if i < index then index else i, capacity);
      }
      return true;
    }

    /** Doubling: a failed allocation or an unrepresentable size changes nothing. */
    method Resize(memory: bool) returns (ok: bool)
      requires Valid() && data != null
      modifies this
      ensures Valid() && data != null && Contents() == old(Contents())
      ensures ok <==> memory && old(capacity) <= UINT64_MAX / (GROWTH * POINTER_BYTES)
      ensures ok ==> capacity == GROWTH * old(capacity) && fresh(data)
      ensures !ok ==> data == old(data) && capacity == old(capacity) && head == old(head)
    {
      if capacity > UINT64_MAX / (GROWTH * POINTER_BYTES) || !memory {
        return false;
      }
      var grown := new T[capacity * GROWTH];
      for i := 0 to count
        modifies grown
        invariant forall k :: 0 <= k < i ==> grown[k] == old(Contents())[k]
      {
        grown[i] := data[Fold(head, i, capacity)];
      }
      data, capacity, head := grown, capacity * GROWTH, 0;
      return true;
    }

    /** array_push and array_enqueue: append, or fail and leave the contents alone. */
    method Push(item: T, memory: bool) returns (ok: bool)
      requires Valid()
      modifies this, data
      ensures Valid()
      ensures Contents() == if ok then old(Contents()) + [item] else old(Contents())
      ensures !ok ==> !memory || old(capacity) > UINT64_MAX / (GROWTH * POINTER_BYTES)
    {
      if data == null {
        var ready := Init(memory);
        if !ready {
          return false;
        }
      }
      if count >= capacity {
        var grown := Resize(memory);
        if !grown {
          return false;
        }
      }
      ghost var s := Contents();
      data[Fold(head, count, capacity)] := item;
      forall i | 0 <= i < count ensures data[Fold(head, i, capacity)] == s[i] {
        FoldInjective(head, i, count, capacity);
      }
      count := count + 1;
      return true;
    }

    method Pop() returns (r: Option<T>)
      requires Valid()
      modifies this
      ensures Valid()
      ensures old(Contents()) == [] ==> r == None && Contents() == []
      ensures old(Contents()) != [] ==> r.Some? && old(Contents()) == Contents() + [r.value]
    {
      if count == 0 || data == null {
        return None;
      }
      r := Some(data[Fold(head, count - 1, capacity)]);
      count := count - 1;
    }

    method Dequeue() returns (r: Option<T>)
      requires Valid()
      modifies this
      ensures Valid()
      ensures old(Contents()) == [] ==> r == None && Contents() == []
      ensures old(Contents()) != [] ==> r.Some? && old(Contents()) == [r.value] + Contents()
    {
      if count == 0 || data == null {
        return None;
      }
      ghost var s := Contents();
      r := Some(data[head]);
      var next := head + 1;
      if next >= capacity {
        next := 0;
      }
      ghost var h := head;
      head := next;
      count := count - 1;
      forall i | 0 <= i < count ensures Contents()[i] == s[i + 1] {
        assert Fold(head, i, capacity) == Fold(h, i + 1, capacity);
      }
    }
  }
}

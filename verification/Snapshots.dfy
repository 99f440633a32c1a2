/**
 * The log slices of the stored jobs with their backing arrays. A Job copy returned to a caller shares its
 * backing array with the store, and later results may be appended into that same array; what the copy shows
 * never changes.
 */
module Snapshots {

  /** A Go slice that starts at the beginning of its array: nil, or a length within the array's capacity. */
  datatype Slice = Slice(arr: array?<string>, len: nat)

  ghost predicate ValidSlice(s: Slice) {
    if s.arr == null then s.len == 0 else s.len <= s.arr.Length
  }

  ghost function Backing(s: Slice): set<array<string>> {
    if s.arr == null then {} else {s.arr}
  }

  /** What a reader of the slice sees. */
  ghost function Shown(s: Slice): seq<string>
    requires ValidSlice(s)
    reads Backing(s)
  {
    if s.arr == null then [] else s.arr[..s.len]
  }

  /** Go's append: in place when the capacity allows, otherwise into a new array with any spare capacity. */
  method Append(s: Slice, extra: seq<string>, spare: nat) returns (r: Slice)
    requires ValidSlice(s)
    modifies Backing(s)
    ensures ValidSlice(r) && Shown(r) == old(Shown(s)) + extra && r.len == s.len + |extra|
    ensures r.arr == s.arr || (r.arr != null && fresh(r.arr))
    ensures s.arr != null ==> forall n | 0 <= n <= s.len :: s.arr[..n] == old(s.arr[..n])
  {
    if extra == [] {
      return s;
    }
    if s.arr != null && s.len + |extra| <= s.arr.Length {
      forall i | 0 <= i < |extra| {
        s.arr[s.len + i] := extra[i];
      }
      r := Slice(s.arr, s.len + |extra|);
    } else {
      var grown := new string[s.len + |extra| + spare](i => "");
      if s.arr != null {
        forall i | 0 <= i < s.len {
          grown[i] := s.arr[i];
        }
      }
      forall i | 0 <= i < |extra| {
        grown[s.len + i] := extra[i];
      }
      r := Slice(grown, s.len + |extra|);
    }
  }

  /** A slice handed to a caller, with what it showed at that moment. */
  datatype Copy = Copy(slice: Slice, shown: seq<string>)

  /** If the copy shares the array of the stored slice, it is not longer. */
  predicate Within(copy: Slice, stored: Slice) {
    copy.arr == null || copy.arr != stored.arr || copy.len <= stored.len
  }

  class SlicedLogs {
    var logs: map<string, Slice>           // the Logs field of each stored job
    ghost var issued: seq<Copy>            // every copy returned so far
    ghost var arrays: set<array<string>>   // the backing arrays in use

    /** Jobs do not share arrays, and every copy still shows what it showed and lies within its job's length. */
    ghost predicate Valid()
      reads this, arrays
    {
      Apart() && forall i | 0 <= i < |issued| :: Backing(issued[i].slice) <= arrays && Kept(issued[i])
    }

    ghost predicate Apart()
      reads this, arrays
    {
      && (forall id | id in logs :: ValidSlice(logs[id]) && Backing(logs[id]) <= arrays)
      && forall a, b | a in logs && b in logs && a != b :: logs[a].arr == null || logs[a].arr != logs[b].arr
    }

    /** The copy shows what it showed, in a part of its array that no append will write. */
    ghost predicate Kept(copy: Copy)
      reads this, Backing(copy.slice)
    {
      && ValidSlice(copy.slice) && Shown(copy.slice) == copy.shown
      && forall id | id in logs :: Within(copy.slice, logs[id])
    }

    constructor ()
      ensures Valid() && fresh(arrays) && logs == map[] && issued == []
    {
      logs, issued, arrays := map[], [], {};
    }

    /** A job is created with nil logs. */
    method Create(id: string)
      requires Valid() && id !in logs
      modifies this
      ensures Valid() && arrays == old(arrays) && issued == old(issued)
      ensures logs == old(logs)[id := Slice(null, 0)]
    {
      logs := logs[id := Slice(null, 0)];
    }

    /** GetJob, ListJobs and AssignNextJob return a copy of the record, and with it the slice. */
    method Return(id: string) returns (s: Slice)
      requires Valid() && id in logs
      modifies this
      ensures Valid() && arrays == old(arrays) && logs == old(logs) && s == logs[id]
      ensures issued == old(issued) + [Copy(s, Shown(s))]
    {
      s := logs[id];
      issued := issued + [Copy(s, Shown(s))];
    }

    /** CompleteJob appends to the stored slice; no copy returned earlier changes. */
    method Complete(id: string, extra: seq<string>, spare: nat)
      requires Valid() && id in logs
      modifies this, Backing(logs[id])
      ensures Valid() && fresh(arrays - old(arrays)) && issued == old(issued)
      ensures logs.Keys == old(logs.Keys)
      ensures forall other | other in logs && other != id :: logs[other] == old(logs[other])
      ensures Shown(logs[id]) == old(Shown(logs[id])) + extra
      ensures forall i | 0 <= i < |issued| :: Shown(issued[i].slice) == old(Shown(issued[i].slice))
    {
      var s := logs[id];
      var r := Append(s, extra, spare);
      logs := logs[id := r];
      arrays := arrays + Backing(r);
      forall i | 0 <= i < |issued|
        ensures Kept(issued[i])
      {
        assert Within(issued[i].slice, s);
      }
    }
  }
}

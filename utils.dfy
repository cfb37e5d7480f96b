/**
 * The repeatable-entry editing helpers of utils.py.
 *
 * A FieldList is an ordered list of sub-form entries (yarn, needle or hook
 * rows).  Every entry carries a `delete` checkbox; removing entries keeps the
 * data of the unticked entries in order, empties the list one pop at a time,
 * re-appends the kept data and reports whether the list shrank.
 */
module Utils {

  /** The data of one sub-form entry: its own field values and its `delete` box. */
  datatype EntryData<T> = EntryData(fields: T, delete: bool)

  /** The data of the entries whose delete box is unticked, in their original order. */
  function Kept<T>(s: seq<EntryData<T>>): (r: seq<EntryData<T>>)
    ensures |r| <= |s|
    ensures forall k :: 0 <= k < |r| ==> !r[k].delete
  {
    if s == [] then []
    else if s[0].delete then Kept(s[1..])
    else [s[0]] + Kept(s[1..])
  }

  /** How many entries have their delete box ticked. */
  function FlaggedCount<T>(s: seq<EntryData<T>>): (n: nat)
    ensures n <= |s|
    ensures n == 0 <==> forall k :: 0 <= k < |s| ==> !s[k].delete
  {
    if s == [] then 0
    else (if s[0].delete then 1 else 0) + FlaggedCount(s[1..])
  }

  /** Adds one to every index of `t`. */
  function Shifted(t: seq<nat>): (u: seq<nat>)
    ensures |u| == |t|
    ensures forall k :: 0 <= k < |t| ==> u[k] == t[k] + 1
  {
    seq(|t|, k requires 0 <= k < |t| => t[k] + 1)
  }

  /** The positions in `s` of the unticked entries, ascending. */
  function KeptIndices<T>(s: seq<EntryData<T>>): seq<nat>
  {
    if s == [] then []
    else if s[0].delete then Shifted(KeptIndices(s[1..]))
    else [0] + Shifted(KeptIndices(s[1..]))
  }

  /**
   * `r` is the selection of `s` at the strictly ascending positions `idx`,
   * and those positions are exactly the unticked entries of `s`.
   */
  ghost predicate IsOrderedSelection<T>(r: seq<EntryData<T>>, s: seq<EntryData<T>>, idx: seq<nat>)
  {
    && |idx| == |r|
    && (forall k :: 0 <= k < |idx| ==> idx[k] < |s| && r[k] == s[idx[k]])
    && (forall k, l :: 0 <= k < l < |idx| ==> idx[k] < idx[l])
    && (forall i :: 0 <= i < |s| ==> (!s[i].delete <==> i in idx))
  }

  /** Membership in a shifted index list is membership of the index one lower. */
  lemma ShiftedMembers(t: seq<nat>, i: nat)
    ensures i in Shifted(t) <==> i > 0 && i - 1 in t
  {
    var u := Shifted(t);
    if i in u {
      var k :| 0 <= k < |u| && u[k] == i;
      assert t[k] == i - 1;
    }
    if i > 0 && i - 1 in t {
      var k :| 0 <= k < |t| && t[k] == i - 1;
      assert u[k] == i;
    }
  }

  /** A flagged entry in front of `tail` shifts every selected position by one. */
  lemma SelectionSkipFlagged<T>(x: EntryData<T>, tail: seq<EntryData<T>>, r: seq<EntryData<T>>, t: seq<nat>)
    requires x.delete
    requires IsOrderedSelection(r, tail, t)
    ensures IsOrderedSelection(r, [x] + tail, Shifted(t))
  {
    var s, u := [x] + tail, Shifted(t);
    forall k | 0 <= k < |u|
      ensures u[k] < |s| && r[k] == s[u[k]]
    {
      assert s[t[k] + 1] == tail[t[k]];
    }
    forall i | 0 <= i < |s|
      ensures !s[i].delete <==> i in u
    {
      ShiftedMembers(t, i);
      if i > 0 { assert s[i] == tail[i - 1]; }
    }
  }

  /** An unflagged entry in front of `tail` is selected first, at position 0. */
  lemma SelectionKeepUnflagged<T>(x: EntryData<T>, tail: seq<EntryData<T>>, r: seq<EntryData<T>>, t: seq<nat>)
    requires !x.delete
    requires IsOrderedSelection(r, tail, t)
    ensures IsOrderedSelection([x] + r, [x] + tail, [0] + Shifted(t))
  {
    var s, u, idx := [x] + tail, Shifted(t), [0] + Shifted(t);
    forall k | 0 <= k < |idx|
      ensures idx[k] < |s| && ([x] + r)[k] == s[idx[k]]
    {
      if k > 0 {
        assert idx[k] == u[k - 1] == t[k - 1] + 1;
        assert s[t[k - 1] + 1] == tail[t[k - 1]];
      }
    }
    forall k, l | 0 <= k < l < |idx|
      ensures idx[k] < idx[l]
    {
      assert idx[l] == u[l - 1];
      if k > 0 { assert idx[k] == u[k - 1]; }
    }
    forall i | 0 <= i < |s|
      ensures !s[i].delete <==> i in idx
    {
      ShiftedMembers(t, i);
      if i > 0 { assert s[i] == tail[i - 1]; }
    }
  }

  /** The kept data are the unticked entries, each once, in their original relative order. */
  lemma {:induction false} KeptIsOrderedSelection<T>(s: seq<EntryData<T>>)
    ensures IsOrderedSelection(Kept(s), s, KeptIndices(s))
  {
    if s != [] {
      KeptIsOrderedSelection(s[1..]);
      assert s == [s[0]] + s[1..];
      if s[0].delete {
        SelectionSkipFlagged(s[0], s[1..], Kept(s[1..]), KeptIndices(s[1..]));
      } else {
        SelectionKeepUnflagged(s[0], s[1..], Kept(s[1..]), KeptIndices(s[1..]));
      }
    }
  }

  /** After the call the list holds one entry per unticked entry from before it. */
  lemma {:induction false} KeptLength<T>(s: seq<EntryData<T>>)
    ensures |Kept(s)| == |s| - FlaggedCount(s)
  {
    if s != [] {
      KeptLength(s[1..]);
    }
  }

  /** Nothing is removed exactly when no entry is flagged, and then the data and order are unchanged. */
  lemma {:induction false} KeptUnchangedIffNoneFlagged<T>(s: seq<EntryData<T>>)
    ensures Kept(s) == s <==> FlaggedCount(s) == 0
    ensures |Kept(s)| == |s| <==> FlaggedCount(s) == 0
  {
    KeptLength(s);
    if s != [] {
      KeptUnchangedIffNoneFlagged(s[1..]);
    }
  }

  /** Re-appended data carry an unticked box, so removing a second time keeps everything. */
  lemma KeptIdempotent<T>(s: seq<EntryData<T>>)
    ensures FlaggedCount(Kept(s)) == 0
    ensures Kept(Kept(s)) == Kept(s)
  {
  }

  /** Rows A, B, C, D with B and D flagged leave A, C in that order. */
  lemma KeptExample(a: int, b: int, c: int, d: int)
    ensures Kept([EntryData(a, false), EntryData(b, true), EntryData(c, false), EntryData(d, true)])
         == [EntryData(a, false), EntryData(c, false)]
  {
    var s := [EntryData(a, false), EntryData(b, true), EntryData(c, false), EntryData(d, true)];
    assert Kept(s[3..]) == [] by { assert s[3..][1..] == []; }
    assert Kept(s[2..]) == [s[2]] by { assert s[2..][1..] == s[3..]; }
    assert Kept(s[1..]) == [s[2]] by { assert s[1..][1..] == s[2..]; }
  }

  /** A WTForms FieldList: the entries of a repeatable sub-form, edited in place. */
  class FieldList<T> {
    var entries: seq<EntryData<T>>

    constructor (initial: seq<EntryData<T>>)
      ensures entries == initial
    {
      entries := initial;
    }

    /** Removes the last entry and returns its data (Python's list.pop on the entries). */
    method PopEntry() returns (last: EntryData<T>)
      requires |entries| > 0
      modifies this
      ensures last == old(entries)[|old(entries)| - 1]
      ensures entries == old(entries)[..|old(entries)| - 1]
    {
      last := entries[|entries| - 1];
      entries := entries[..|entries| - 1];
    }

    /** Adds a new entry built from `data` at the end of the list. */
    method AppendEntry(data: EntryData<T>)
      modifies this
      ensures entries == old(entries) + [data]
    {
      entries := entries + [data];
    }
  }

  /**
   * Removes every entry whose delete box is ticked, keeping the others in order,
   * and reports whether the list is shorter than before.
   */
  method RemoveFieldListEntry<T>(list: FieldList<T>) returns (shrank: bool)
    modifies list
    ensures list.entries == Kept(old(list.entries))
    ensures |list.entries| == |old(list.entries)| - FlaggedCount(old(list.entries))
    ensures shrank <==> |list.entries| != |old(list.entries)|
    ensures shrank <==> FlaggedCount(old(list.entries)) > 0
  {
    var keep := Kept(list.entries);
    var initListSize := |list.entries|;
    for i := 0 to initListSize
      invariant list.entries == old(list.entries)[..initListSize - i]
    {
      var _ := list.PopEntry();
    }
    for j := 0 to |keep|
      invariant list.entries == keep[..j]
    {
      list.AppendEntry(keep[j]);
    }
    shrank := |list.entries| != initListSize;
    KeptLength(old(list.entries));
    KeptUnchangedIffNoneFlagged(old(list.entries));
  }

  /** An unfinished helper: it leaves the field list as it was. */
  method PrepopulateFormFieldList<T>(fieldList: FieldList<T>, dataList: seq<T>)
    ensures fieldList.entries == old(fieldList.entries)
  {
  }
}

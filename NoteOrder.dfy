/**
 * The final step of `ZkNotes.retrieveNotes`: `notes.sort` with the comparator
 * `note2.modified - note1.modified`, newest first. `Array.prototype.sort` is
 * stable, so notes with equal timestamps keep their order. The order is
 * specified by `SortDesc` and produced in place by `SortByModified`.
 */
module NoteOrder {
  import opened NotePipeline

  /** Newest first: no note is followed by a strictly newer one. */
  predicate SortedDesc(s: seq<ZkNote>) {
    forall i, j :: 0 <= i < j < |s| ==> s[i].modified >= s[j].modified
  }

  /** The notes of `s` stamped `t`, in their order in `s`. */
  function Stamped(s: seq<ZkNote>, t: int): seq<ZkNote> {
    if s == [] then []
    else (if s[0].modified == t then [s[0]] else []) + Stamped(s[1..], t)
  }

  /** `x` placed before the first note of `s` that is strictly older than it. */
  function Insert(s: seq<ZkNote>, x: ZkNote): (r: seq<ZkNote>)
    ensures |r| == |s| + 1
  {
    if s == [] || s[0].modified < x.modified then [x] + s
    else [s[0]] + Insert(s[1..], x)
  }

  /** The stable newest-first order of `s`. */
  function SortDesc(s: seq<ZkNote>): (r: seq<ZkNote>)
    ensures |r| == |s|
  {
    if s == [] then [] else Insert(SortDesc(s[..|s| - 1]), s[|s| - 1])
  }

  lemma {:induction false} StampedAppend(a: seq<ZkNote>, b: seq<ZkNote>, t: int)
    ensures Stamped(a + b, t) == Stamped(a, t) + Stamped(b, t)
  {
    if a == [] {
      assert a + b == b;
    } else {
      var head := if a[0].modified == t then [a[0]] else [];
      assert (a + b)[0] == a[0] && (a + b)[1..] == a[1..] + b;
      assert Stamped(a + b, t) == head + Stamped(a[1..] + b, t);
      StampedAppend(a[1..], b, t);
      assert head + (Stamped(a[1..], t) + Stamped(b, t)) == (head + Stamped(a[1..], t)) + Stamped(b, t);
    }
  }

  lemma {:induction false} StampedOlder(s: seq<ZkNote>, t: int)
    requires forall i :: 0 <= i < |s| ==> s[i].modified < t
    ensures Stamped(s, t) == []
  {
    if s != [] {
      StampedOlder(s[1..], t);
    }
  }

  lemma {:induction false} InsertSorted(s: seq<ZkNote>, x: ZkNote)
    requires SortedDesc(s)
    ensures SortedDesc(Insert(s, x))
  {
    if s != [] && s[0].modified >= x.modified {
      InsertSorted(s[1..], x);
      InsertMembers(s[1..], x);
      var r := Insert(s[1..], x);
      forall i | 0 <= i < |r| ensures r[i].modified <= s[0].modified {
        if r[i] != x {
          var k :| 0 <= k < |s[1..]| && s[1..][k] == r[i];
          assert s[k + 1] == r[i];
        }
      }
    }
  }

  lemma {:induction false} InsertPermutes(s: seq<ZkNote>, x: ZkNote)
    ensures multiset(Insert(s, x)) == multiset(s) + multiset{x}
  {
    if s != [] && s[0].modified >= x.modified {
      InsertPermutes(s[1..], x);
      assert s == [s[0]] + s[1..];
    }
  }

  lemma InsertMembers(s: seq<ZkNote>, x: ZkNote)
    ensures forall i :: 0 <= i < |Insert(s, x)| ==> Insert(s, x)[i] == x || Insert(s, x)[i] in s
  {
    InsertPermutes(s, x);
    forall i | 0 <= i < |Insert(s, x)| ensures Insert(s, x)[i] == x || Insert(s, x)[i] in s {
      assert Insert(s, x)[i] in multiset(Insert(s, x));
    }
  }

  lemma StampedCons(x: ZkNote, rest: seq<ZkNote>, t: int)
    ensures Stamped([x] + rest, t) == (if x.modified == t then [x] else []) + Stamped(rest, t)
  {
    assert ([x] + rest)[0] == x && ([x] + rest)[1..] == rest;
  }

  lemma SortedTail(s: seq<ZkNote>)
    requires s != [] && SortedDesc(s)
    ensures SortedDesc(s[1..])
  {
  }

  /** A sorted list whose first note is older than `t` has no note stamped `t`. */
  lemma SortedOlder(s: seq<ZkNote>, t: int)
    requires SortedDesc(s) && (s == [] || s[0].modified < t)
    ensures Stamped(s, t) == []
  {
    StampedOlder(s, t);
  }

  lemma {:induction false} InsertStamped(s: seq<ZkNote>, x: ZkNote, t: int)
    requires SortedDesc(s)
    ensures Stamped(Insert(s, x), t) == Stamped(s, t) + (if x.modified == t then [x] else [])
  {
    var own := if x.modified == t then [x] else [];
    if s == [] || s[0].modified < x.modified {
      StampedCons(x, s, t);
      if x.modified == t {
        SortedOlder(s, t);
      }
    } else {
      var rest := Insert(s[1..], x);
      var head := if s[0].modified == t then [s[0]] else [];
      StampedCons(s[0], rest, t);
      SortedTail(s);
      InsertStamped(s[1..], x, t);
      assert head + (Stamped(s[1..], t) + own) == (head + Stamped(s[1..], t)) + own;
    }
  }

  /** The sort leaves the notes newest first. */
  lemma {:induction false} SortDescSorted(s: seq<ZkNote>)
    ensures SortedDesc(SortDesc(s))
  {
    if s != [] {
      SortDescSorted(s[..|s| - 1]);
      InsertSorted(SortDesc(s[..|s| - 1]), s[|s| - 1]);
    }
  }

  /** The sort neither loses nor adds a note. */
  lemma {:induction false} SortDescPermutes(s: seq<ZkNote>)
    ensures multiset(SortDesc(s)) == multiset(s)
  {
    if s != [] {
      var init, x := s[..|s| - 1], s[|s| - 1];
      assert multiset(s) == multiset(init) + multiset{x} by {
        assert s == init + [x];
      }
      SortDescPermutes(init);
      InsertPermutes(SortDesc(init), x);
    }
  }

  /** The sort is stable: the notes of each timestamp keep their relative order. */
  lemma {:induction false} SortDescStable(s: seq<ZkNote>, t: int)
    ensures Stamped(SortDesc(s), t) == Stamped(s, t)
  {
    if s != [] {
      var init, x := s[..|s| - 1], s[|s| - 1];
      SortDescStable(init, t);
      SortDescSorted(init);
      InsertStamped(SortDesc(init), x, t);
      assert s == init + [x];
      StampedAppend(init, [x], t);
    }
  }

  lemma {:induction false} StampedNonEmpty(s: seq<ZkNote>, k: nat)
    requires k < |s|
    ensures Stamped(s, s[k].modified) != []
  {
    if k > 0 {
      StampedNonEmpty(s[1..], k - 1);
      StampedAppend([s[0]], s[1..], s[k].modified);
      assert s == [s[0]] + s[1..];
    }
  }

  lemma {:induction false} StampedHasStamp(s: seq<ZkNote>, t: int)
    requires Stamped(s, t) != []
    ensures exists k :: 0 <= k < |s| && s[k].modified == t
  {
    if s[0].modified != t {
      StampedHasStamp(s[1..], t);
      var k :| 0 <= k < |s[1..]| && s[1..][k].modified == t;
      assert s[k + 1].modified == t;
    }
  }

  /** Only the empty list has no notes of any timestamp. */
  lemma StampedNone(s: seq<ZkNote>)
    requires forall t :: Stamped(s, t) == []
    ensures s == []
  {
    if s != [] {
      StampedNonEmpty(s, 0);
      assert false;
    }
  }

  /** A sorted list starts no older than any timestamp it has notes of. */
  lemma NewestNotOlder(r: seq<ZkNote>, s: seq<ZkNote>)
    requires r != [] && s != [] && SortedDesc(s)
    requires Stamped(s, r[0].modified) == Stamped(r, r[0].modified)
    ensures s[0].modified >= r[0].modified
  {
    StampedNonEmpty(r, 0);
    StampedHasStamp(s, r[0].modified);
    var k :| 0 <= k < |s| && s[k].modified == r[0].modified;
    if k > 0 {
      assert s[0].modified >= s[k].modified;
    }
  }

  /** Two sorted lists with the same notes per timestamp start with the same note. */
  lemma SameHead(r: seq<ZkNote>, s: seq<ZkNote>)
    requires r != [] && s != [] && SortedDesc(r) && SortedDesc(s)
    requires forall t :: Stamped(r, t) == Stamped(s, t)
    ensures r[0] == s[0]
  {
    var t0, u0 := r[0].modified, s[0].modified;
    assert Stamped(r, t0) == Stamped(s, t0) && Stamped(r, u0) == Stamped(s, u0);
    NewestNotOlder(r, s);
    NewestNotOlder(s, r);
    assert Stamped(r, t0)[0] == r[0];
    assert Stamped(s, t0)[0] == s[0];
  }

  /** Removing an equal first note keeps the per-timestamp lists equal. */
  lemma SameTailStamps(r: seq<ZkNote>, s: seq<ZkNote>)
    requires r != [] && s != [] && r[0] == s[0]
    requires forall t :: Stamped(r, t) == Stamped(s, t)
    ensures forall t :: Stamped(r[1..], t) == Stamped(s[1..], t)
  {
    forall t ensures Stamped(r[1..], t) == Stamped(s[1..], t) {
      var head := if r[0].modified == t then [r[0]] else [];
      assert Stamped(r, t) == head + Stamped(r[1..], t);
      assert Stamped(s, t) == head + Stamped(s[1..], t);
      assert (head + Stamped(r[1..], t))[|head|..] == Stamped(r[1..], t);
      assert (head + Stamped(s[1..], t))[|head|..] == Stamped(s[1..], t);
    }
  }

  /**
   * A newest-first order in which every timestamp's notes keep their order is
   * unique, so any stable sort with this comparator returns `SortDesc(s)`.
   */
  lemma {:induction false} StableSortUnique(r: seq<ZkNote>, s: seq<ZkNote>)
    requires SortedDesc(r) && SortedDesc(s)
    requires forall t :: Stamped(r, t) == Stamped(s, t)
    ensures r == s
    decreases |r| + |s|
  {
    if r == [] {
      StampedNone(s);
    } else if s == [] {
      StampedNone(r);
    } else {
      SameHead(r, s);
      SameTailStamps(r, s);
      StableSortUnique(r[1..], s[1..]);
      assert r == [r[0]] + r[1..] && s == [s[0]] + s[1..];
    }
  }

  lemma {:induction false} InsertAt(s: seq<ZkNote>, x: ZkNote, j: nat)
    requires SortedDesc(s) && j <= |s|
    requires j > 0 ==> s[j - 1].modified >= x.modified
    requires forall k :: j <= k < |s| ==> s[k].modified < x.modified
    ensures Insert(s, x) == s[..j] + [x] + s[j..]
  {
    if j > 0 {
      InsertAt(s[1..], x, j - 1);
      assert s[1..][..j - 1] == s[1..j];
      assert s[1..][j - 1..] == s[j..];
      assert s[..j] == [s[0]] + s[1..j];
    }
  }

  /** Sorting one more note inserts it into the sorted prefix. */
  lemma SortDescStep(s: seq<ZkNote>, i: nat)
    requires i < |s|
    ensures SortDesc(s[..i + 1]) == Insert(SortDesc(s[..i]), s[i])
  {
    assert s[..i + 1][..i] == s[..i];
  }

  /**
   * Sorts `a` in place, newest first, keeping equal timestamps in order:
   * an insertion sort that moves each note left past strictly older ones.
   */
  method SortByModified(a: array<ZkNote>)
    modifies a
    ensures a[..] == SortDesc(old(a[..]))
  {
    ghost var original := a[..];
    var i := 0;
    while i < a.Length
      invariant 0 <= i <= a.Length
      invariant a[..i] == SortDesc(original[..i])
      invariant a[i..] == original[i..]
    {
      ghost var prefix := a[..i];
      SortDescSorted(original[..i]);
      SortDescStep(original, i);
      InsertNext(a, i);
      i := i + 1;
    }
    assert a[..] == a[..a.Length] && original == original[..a.Length];
  }

  /** A prefix with `x` written at `j` and the notes from `j` on shifted one right. */
  lemma ShiftedIn(b: seq<ZkNote>, prefix: seq<ZkNote>, x: ZkNote, j: nat)
    requires j <= |prefix| < |b| && b[j] == x
    requires forall k :: 0 <= k < j ==> b[k] == prefix[k]
    requires forall k :: j < k <= |prefix| ==> b[k] == prefix[k - 1]
    ensures b[..|prefix| + 1] == prefix[..j] + [x] + prefix[j..]
  {
  }

  /**
   * Shifts right by one the notes just before index `i` that are strictly
   * older than `x`, and returns the slot they leave free.
   */
  method ShiftOlder(a: array<ZkNote>, i: nat, x: ZkNote) returns (j: nat)
    requires i < a.Length
    modifies a
    ensures j <= i
    ensures forall k :: 0 <= k < j ==> a[k] == old(a[k])
    ensures forall k :: j < k <= i ==> a[k] == old(a[k - 1])
    ensures forall k :: i < k < a.Length ==> a[k] == old(a[k])
    ensures forall k :: j <= k < i ==> old(a[k]).modified < x.modified
    ensures j > 0 ==> old(a[j - 1]).modified >= x.modified
  {
    j := i;
    while j > 0 && a[j - 1].modified < x.modified
      invariant j <= i
      invariant forall k :: 0 <= k < j ==> a[k] == old(a[k])
      invariant forall k :: j < k <= i ==> a[k] == old(a[k - 1])
      invariant forall k :: i < k < a.Length ==> a[k] == old(a[k])
      invariant forall k :: j <= k < i ==> old(a[k]).modified < x.modified
    {
      a[j] := a[j - 1];
      j := j - 1;
    }
  }

  /**
   * Writing `x`, the note at `i`, into the slot left free by shifting the
   * older notes before it one to the right inserts it into the sorted prefix.
   */
  lemma InsertedByShift(before: seq<ZkNote>, after: seq<ZkNote>, i: nat, j: nat)
    requires i < |before| == |after| && j <= i && SortedDesc(before[..i])
    requires after[j] == before[i]
    requires forall k :: 0 <= k < j ==> after[k] == before[k]
    requires forall k :: j < k <= i ==> after[k] == before[k - 1]
    requires forall k :: i < k < |after| ==> after[k] == before[k]
    requires forall k :: j <= k < i ==> before[k].modified < before[i].modified
    requires j > 0 ==> before[j - 1].modified >= before[i].modified
    ensures after[..i + 1] == Insert(before[..i], before[i])
    ensures after[i + 1..] == before[i + 1..]
  {
    var prefix := before[..i];
    InsertAt(prefix, before[i], j);
    ShiftedIn(after, prefix, before[i], j);
  }

  /** Moves `a[i]` left past the strictly older notes of the sorted prefix `a[..i]`. */
  method InsertNext(a: array<ZkNote>, i: nat)
    requires i < a.Length && SortedDesc(a[..i])
    modifies a
    ensures a[..i + 1] == Insert(old(a[..i]), old(a[i]))
    ensures a[i + 1..] == old(a[i + 1..])
  {
    ghost var before := a[..];
    var x := a[i];
    var j := ShiftOlder(a, i, x);
    a[j] := x;
    InsertedByShift(before, a[..], i, j);
    assert before[..i] == old(a[..i]) && before[i + 1..] == old(a[i + 1..]);
  }
}

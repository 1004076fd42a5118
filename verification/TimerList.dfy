/**
  The ordered set of timer entries, `std::set<std::pair<Timestamp, Timer*>>`:
  src/net/TimerQueue.h. A timer is named by its address.
 */
module TimerList {

  /** `UINTPTR_MAX`, the address in the sentry of `getExpired`. */
  const MAX_ADDRESS := 0xffff_ffff_ffff_ffff

  datatype Entry = Entry(when: int, address: nat)

  predicate Less(a: Entry, b: Entry)
  {
    a.when < b.when || (a.when == b.when && a.address < b.address)
  }

  /** Entries are ordered by time, and those of one time by address. */
  lemma LessIsOrder(a: Entry, b: Entry, c: Entry)
    ensures !Less(a, a)
    ensures Less(a, b) || Less(b, a) || a == b
    ensures Less(a, b) ==> !Less(b, a)
    ensures Less(a, b) && Less(b, c) ==> Less(a, c)
    ensures a.when < b.when ==> Less(a, b)
    ensures a.when == b.when && a.address < b.address ==> Less(a, b)
  {
  }

  ghost predicate Sorted(s: seq<Entry>)
  {
    forall i, j | 0 <= i < j < |s| :: Less(s[i], s[j])
  }

  /** `lower_bound`: the first position whose entry is not less than `e`. */
  function LowerBound(s: seq<Entry>, e: Entry): (k: nat)
    ensures k <= |s|
    decreases |s|
  {
    if s == [] || !Less(s[0], e) then 0 else 1 + LowerBound(s[1..], e)
  }

  function Insert(s: seq<Entry>, e: Entry): seq<Entry>
  {
    var k := LowerBound(s, e);
    if k < |s| && s[k] == e then s else s[..k] + [e] + s[k..]
  }

  /** What `getExpired` takes out. */
  function ExpiredCount(s: seq<Entry>, now: int): (k: nat)
    ensures k <= |s|
  {
    LowerBound(s, Entry(now, MAX_ADDRESS))
  }

  /** How many entries a timer has. */
  function Count(s: seq<Entry>, id: nat): nat
    decreases |s|
  {
    if s == [] then 0 else (if s[0].address == id then 1 else 0) + Count(s[1..], id)
  }

  lemma {:induction false} LowerBoundSplits(s: seq<Entry>, e: Entry)
    requires Sorted(s)
    ensures forall i | 0 <= i < LowerBound(s, e) :: Less(s[i], e)
    ensures forall i | LowerBound(s, e) <= i < |s| :: !Less(s[i], e)
    decreases |s|
  {
    if s != [] && Less(s[0], e) {
      var rest := s[1..];
      assert Sorted(rest) by {
        assert forall i | 0 <= i < |rest| :: rest[i] == s[i + 1];
      }
      LowerBoundSplits(rest, e);
      forall i | 0 <= i < LowerBound(s, e)
        ensures Less(s[i], e)
      {
        assert i > 0 ==> s[i] == rest[i - 1];
      }
      forall i | LowerBound(s, e) <= i < |s|
        ensures !Less(s[i], e)
      {
        assert s[i] == rest[i - 1];
      }
    }
  }

  /** Insertion keeps the order. */
  lemma InsertSorted(s: seq<Entry>, e: Entry)
    requires Sorted(s) && e !in s
    ensures Sorted(Insert(s, e))
  {
    var k := LowerBound(s, e);
    LowerBoundSplits(s, e);
    hide LowerBound;
    var t := Insert(s, e);
    forall i, j | 0 <= i < j < |t|
      ensures Less(t[i], t[j])
    {
      assert t[i] == (if i < k then s[i] else if i == k then e else s[i - 1]);
      assert t[j] == (if j < k then s[j] else if j == k then e else s[j - 1]);
      if i == k {
        assert s[j - 1] != e && !Less(s[j - 1], e);
      }
    }
  }

  lemma {:induction false} CountJoin(s: seq<Entry>, t: seq<Entry>, id: nat)
    ensures Count(s + t, id) == Count(s, id) + Count(t, id)
    decreases |s|
  {
    if s == [] {
      assert s + t == t;
    } else {
      assert (s + t)[1..] == s[1..] + t;
      CountJoin(s[1..], t, id);
    }
  }

  lemma CountOne(e: Entry, id: nat)
    ensures Count([e], id) == if e.address == id then 1 else 0
  {
  }

  lemma CountSplit(s: seq<Entry>, k: nat, id: nat)
    requires k <= |s|
    ensures Count(s, id) == Count(s[..k], id) + Count(s[k..], id)
  {
    assert s == s[..k] + s[k..];
    CountJoin(s[..k], s[k..], id);
  }

  lemma CountPositive(s: seq<Entry>, e: Entry)
    requires e in s
    ensures Count(s, e.address) > 0
  {
    var i :| 0 <= i < |s| && s[i] == e;
    CountSplit(s, i, e.address);
    assert s[i..][0] == e;
  }

  /** Insertion adds exactly the new entry. */
  lemma InsertAdds(s: seq<Entry>, e: Entry, id: nat)
    requires e !in s
    ensures Count(Insert(s, e), id) == Count(s, id) + if e.address == id then 1 else 0
  {
    var k := LowerBound(s, e);
    hide LowerBound;
    CountSplit(s, k, id);
    CountJoin(s[..k], [e], id);
    CountJoin(s[..k] + [e], s[k..], id);
    CountOne(e, id);
    hide Count;
    assert Insert(s, e) == s[..k] + [e] + s[k..];
  }

  /** An entry that is there already is not inserted again. */
  lemma InsertPresent(s: seq<Entry>, e: Entry)
    requires Sorted(s) && e in s
    ensures Insert(s, e) == s
  {
    LowerBoundSplits(s, e);
    hide LowerBound;
    var i :| 0 <= i < |s| && s[i] == e;
    assert forall j | 0 <= j < i :: Less(s[j], e);
    assert !Less(s[i], e);
  }

  lemma InsertMembers(s: seq<Entry>, e: Entry, x: Entry)
    ensures x in Insert(s, e) <==> x in s || x == e
  {
    var k := LowerBound(s, e);
    hide LowerBound;
    assert s == s[..k] + s[k..];
  }

  /** The new head is the earlier of the old head and the new entry, and `insert` says if it changed. */
  lemma InsertHead(s: seq<Entry>, e: Entry)
    requires Sorted(s)
    ensures Insert(s, e) != []
    ensures Insert(s, e)[0].when == if s == [] || e.when < s[0].when then e.when else s[0].when
  {
    LowerBoundSplits(s, e);
  }

  /** `getExpired` separates exactly the entries up to `now` from those after it. */
  lemma ExpiredExactly(s: seq<Entry>, now: int)
    requires Sorted(s) && forall i | 0 <= i < |s| :: s[i].address < MAX_ADDRESS
    ensures forall i | 0 <= i < |s| :: i < ExpiredCount(s, now) <==> s[i].when <= now
  {
    LowerBoundSplits(s, Entry(now, MAX_ADDRESS));
  }

  lemma SortedPart(s: seq<Entry>, k: nat)
    requires Sorted(s) && k <= |s|
    ensures Sorted(s[..k]) && Sorted(s[k..])
  {
  }
}

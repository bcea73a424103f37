/**
 * The history screen of the client (`bank/info.rs`): the records the
 * `info` packet carried, sorted in place by time, with the user snapshot
 * beside them. The sort is unstable: only the order of the times is
 * promised, not the order of records that share a time.
 */
module ClientInfo {
  import opened Wire
  import opened ClientBank

  /** `chrono::DateTime<Utc>` as built from a timestamp: seconds and nanoseconds. */
  datatype Stamp = Stamp(secs: i64, nanos: u32)

  /** `TradeInfo`. */
  datatype TradeInfo = TradeInfo(tid: i32, receiver: u32, sender: Bytes, time: Stamp, amount: i32)

  /** `a.time.cmp(&b.time) != Greater`: instants compare by seconds, then nanoseconds. */
  predicate NotAfter(a: Stamp, b: Stamp) {
    a.secs < b.secs || (a.secs == b.secs && a.nanos <= b.nanos)
  }

  predicate SortedByTime(s: seq<TradeInfo>) {
    forall i, j :: 0 <= i < j < |s| ==> NotAfter(s[i].time, s[j].time)
  }

  /** The time column of a list of records. */
  function Times(s: seq<TradeInfo>): (r: seq<Stamp>)
    ensures |r| == |s| && forall i :: 0 <= i < |s| ==> r[i] == s[i].time
  {
    seq(|s|, i requires 0 <= i < |s| => s[i].time)
  }

  /** Removing one record keeps a list sorted. */
  lemma RemoveKeepsSorted(t: seq<TradeInfo>, k: int)
    requires SortedByTime(t) && 0 <= k < |t|
    ensures SortedByTime(t[..k] + t[k + 1..])
  {
    var u := t[..k] + t[k + 1..];
    forall i, j | 0 <= i < j < |u|
      ensures NotAfter(u[i].time, u[j].time)
    {
      var i' := if i < k then i else i + 1;
      var j' := if j < k then j else j + 1;
      assert u[i] == t[i'] && u[j] == t[j'];
    }
  }

  /** In a sorted list, a record whose time is the earliest can be moved to the front without changing the time column. */
  lemma TimesWithoutFirstTime(t: seq<TradeInfo>, k: int)
    requires SortedByTime(t) && 0 <= k < |t| && t[k].time == t[0].time
    ensures Times(t) == [t[k].time] + Times(t[..k] + t[k + 1..])
  {
    var rest := t[..k] + t[k + 1..];
    forall i | 0 <= i < |t|
      ensures Times(t)[i] == ([t[k].time] + Times(rest))[i]
    {
      if 0 < i <= k {
        assert NotAfter(t[0].time, t[i].time) && NotAfter(t[i].time, t[k].time);
        assert NotAfter(t[0].time, t[i - 1].time) && NotAfter(t[i - 1].time, t[k].time);
        assert rest[i - 1] == t[i - 1];
      } else if i > k {
        assert rest[i - 1] == t[i];
      }
    }
  }

  lemma RemoveOne(t: seq<TradeInfo>, k: int)
    requires 0 <= k < |t|
    ensures multiset(t[..k] + t[k + 1..]) == multiset(t) - multiset{t[k]}
  {
    assert t == t[..k] + [t[k]] + t[k + 1..];
  }

  /** The first record of one sorted arrangement has the earliest time of any other. */
  lemma FirstIsEarliest(s: seq<TradeInfo>, t: seq<TradeInfo>, k: int)
    requires SortedByTime(s) && SortedByTime(t) && multiset(s) == multiset(t)
    requires 0 <= k < |t| && |s| > 0 && t[k] == s[0]
    ensures t[k].time == t[0].time
  {
    assert t[0] in multiset(s);
    var m :| 0 <= m < |s| && s[m] == t[0];
    assert NotAfter(s[0].time, t[0].time) && NotAfter(t[0].time, s[0].time);
  }

  /** A sorted list without one of its earliest records. */
  lemma DropEarliest(t: seq<TradeInfo>, k: int) returns (t': seq<TradeInfo>)
    requires SortedByTime(t) && 0 <= k < |t| && t[k].time == t[0].time
    ensures SortedByTime(t') && |t'| == |t| - 1
    ensures multiset(t') == multiset(t) - multiset{t[k]}
    ensures Times(t) == [t[k].time] + Times(t')
  {
    RemoveOne(t, k);
    RemoveKeepsSorted(t, k);
    TimesWithoutFirstTime(t, k);
    t' := t[..k] + t[k + 1..];
  }

  /** Take the earliest record off both arrangements, leaving two smaller arrangements of the same records. */
  lemma PeelEarliest(s: seq<TradeInfo>, t: seq<TradeInfo>) returns (s': seq<TradeInfo>, t': seq<TradeInfo>)
    requires SortedByTime(s) && SortedByTime(t) && multiset(s) == multiset(t) && s != []
    ensures SortedByTime(s') && SortedByTime(t') && multiset(s') == multiset(t') && |s'| == |s| - 1
    ensures Times(s) == [s[0].time] + Times(s') && Times(t) == [s[0].time] + Times(t')
  {
    assert s[0] in multiset(t);
    var k :| 0 <= k < |t| && t[k] == s[0];
    FirstIsEarliest(s, t, k);
    s' := DropEarliest(s, 0);
    t' := DropEarliest(t, k);
  }

  /**
   * Any two sorted arrangements of the same records have the same time
   * column: an unstable sort leaves open only the order among records that
   * share a time.
   */
  lemma {:induction false} SortedTimesDetermined(s: seq<TradeInfo>, t: seq<TradeInfo>)
    requires SortedByTime(s) && SortedByTime(t) && multiset(s) == multiset(t)
    ensures Times(s) == Times(t)
    decreases |s|
  {
    if s == [] {
      assert |t| == |multiset(t)| == 0;
      assert t == [];
    } else {
      var s', t' := PeelEarliest(s, t);
      SortedTimesDetermined(s', t');
    }
  }

  /** `sort_unstable_by` on the times: sorted, and the same records. */
  method SortByTime(a: array<TradeInfo>)
    modifies a
    ensures SortedByTime(a[..])
    ensures multiset(a[..]) == multiset(old(a[..]))
  {
    if a.Length == 0 {
      return;
    }
    var i := 1;
    while i < a.Length
      invariant 1 <= i <= a.Length
      invariant SortedByTime(a[..i])
      invariant multiset(a[..]) == multiset(old(a[..]))
    {
      InsertAt(a, i);
      i := i + 1;
    }
  }

  /** One pass of insertion: `a[i]` moves left past every later instant. */
  method InsertAt(a: array<TradeInfo>, i: int)
    requires 0 < i < a.Length && SortedByTime(a[..i])
    modifies a
    ensures SortedByTime(a[..i + 1])
    ensures multiset(a[..]) == multiset(old(a[..]))
    ensures a[i + 1..] == old(a[i + 1..])
  {
    InsertingStart(a[..], i);
    var j := i;
    while j > 0 && !NotAfter(a[j - 1].time, a[j].time)
      invariant 0 <= j <= i
      invariant Inserting(a[..], j, i)
      invariant multiset(a[..]) == multiset(old(a[..]))
      invariant a[i + 1..] == old(a[i + 1..])
    {
      SwapKeepsInserting(a[..], j, i);
      a[j - 1], a[j] := a[j], a[j - 1];
      j := j - 1;
    }
    InsertingDone(a[..], j, i);
  }

  /**
   * Midway through a pass: the record being inserted sits at `j`, the
   * records before it and from it up to `i` are each sorted, and none
   * before it is later than any after it.
   */
  predicate Inserting(s: seq<TradeInfo>, j: int, i: int)
    requires 0 <= j <= i < |s|
  {
    && SortedByTime(s[..j])
    && SortedByTime(s[j..i + 1])
    && forall k, m :: 0 <= k < j < m <= i ==> NotAfter(s[k].time, s[m].time)
  }

  lemma InsertingStart(s: seq<TradeInfo>, i: int)
    requires 0 < i < |s| && SortedByTime(s[..i])
    ensures Inserting(s, i, i)
  {
  }

  /** Swapping the record with a later one before it keeps the pass's shape one place further left. */
  lemma SwapKeepsInserting(s: seq<TradeInfo>, j: int, i: int)
    requires 0 < j <= i < |s| && Inserting(s, j, i) && !NotAfter(s[j - 1].time, s[j].time)
    ensures var s' := s[j - 1 := s[j]][j := s[j - 1]];
      Inserting(s', j - 1, i) && multiset(s') == multiset(s) && s'[i + 1..] == s[i + 1..]
  {
    var s' := s[j - 1 := s[j]][j := s[j - 1]];
    assert s'[..j - 1] == s[..j - 1];
    SwapSortsTail(s, j, i);
    SwapKeepsOrder(s, j, i);
  }

  lemma SwapSortsTail(s: seq<TradeInfo>, j: int, i: int)
    requires 0 < j <= i < |s| && Inserting(s, j, i) && !NotAfter(s[j - 1].time, s[j].time)
    ensures SortedByTime(s[j - 1 := s[j]][j := s[j - 1]][j - 1..i + 1])
  {
    var s' := s[j - 1 := s[j]][j := s[j - 1]];
    forall k, m | j - 1 <= k < m <= i
      ensures NotAfter(s'[k].time, s'[m].time)
    {
      if k == j - 1 {
        if m > j {
          assert s[j..i + 1][0] == s[j] && s[j..i + 1][m - j] == s[m];
        }
      } else if k == j {
        assert NotAfter(s[j - 1].time, s[m].time);
      } else {
        assert s[j..i + 1][k - j] == s[k] && s[j..i + 1][m - j] == s[m];
      }
    }
  }

  lemma SwapKeepsOrder(s: seq<TradeInfo>, j: int, i: int)
    requires 0 < j <= i < |s| && Inserting(s, j, i)
    ensures var s' := s[j - 1 := s[j]][j := s[j - 1]];
      forall k, m :: 0 <= k < j - 1 < m <= i ==> NotAfter(s'[k].time, s'[m].time)
  {
    var s' := s[j - 1 := s[j]][j := s[j - 1]];
    forall k, m | 0 <= k < j - 1 < m <= i
      ensures NotAfter(s'[k].time, s'[m].time)
    {
      if m == j {
        assert s[..j][k] == s[k] && s[..j][j - 1] == s[j - 1];
      }
    }
  }

  lemma InsertingDone(s: seq<TradeInfo>, j: int, i: int)
    requires 0 <= j <= i < |s| && Inserting(s, j, i)
    requires j == 0 || NotAfter(s[j - 1].time, s[j].time)
    ensures SortedByTime(s[..i + 1])
  {
    forall k, m | 0 <= k < m <= i
      ensures NotAfter(s[k].time, s[m].time)
    {
      if k < j && m == j {
        assert NotAfter(s[k].time, s[j - 1].time);
      }
    }
  }

  /** `InfoUi`: the user and the sorted records. */
  class InfoUi {
    const user: User
    const info: array<TradeInfo>

    /** `InfoUi::new`: sorts the records it is handed and keeps the user as given. */
    constructor (user: User, info: array<TradeInfo>)
      modifies info
      ensures this.user == user && this.info == info
      ensures SortedByTime(info[..])
      ensures multiset(info[..]) == multiset(old(info[..]))
    {
      SortByTime(info);
      this.user := user;
      this.info := info;
    }
  }
}

/**
 * The per-step option record and the stable ordering of a list of them by
 * raw departure timestamp (`transit_options.sort(key=...)`, which Python
 * performs with a stable sort).
 */
module TransitOptions {
  import opened Wrappers

  /** One transit option; the line and station are `None` where the response held a JSON null. */
  datatype TransitOption = TransitOption(
    leaveFromTime: string,
    transitLine: Option<string>,
    stationName: Option<string>,
    transitDeparture: string,
    transitDepartureTimestamp: int)

  /** Non-decreasing in the raw departure timestamp. */
  predicate Sorted(s: seq<TransitOption>) {
    forall i, j :: 0 <= i < j < |s| ==> s[i].transitDepartureTimestamp <= s[j].transitDepartureTimestamp
  }

  /** The options with timestamp `k`, in their order in `s`. */
  function WithTimestamp(s: seq<TransitOption>, k: int): (r: seq<TransitOption>)
    ensures |r| <= |s|
  {
    if s == [] then []
    else (if s[0].transitDepartureTimestamp == k then [s[0]] else []) + WithTimestamp(s[1..], k)
  }

  lemma {:induction false} WithTimestampMember(s: seq<TransitOption>, k: int, o: TransitOption)
    requires o in WithTimestamp(s, k)
    ensures o in s && o.transitDepartureTimestamp == k
  {
    if s[0] != o || s[0].transitDepartureTimestamp != k {
      WithTimestampMember(s[1..], k, o);
    }
  }

  /** Every option of `s` departs no earlier than `t`. */
  predicate NoEarlierThan(t: int, s: seq<TransitOption>) {
    forall i :: 0 <= i < |s| ==> t <= s[i].transitDepartureTimestamp
  }

  lemma SortedCons(o: TransitOption, s: seq<TransitOption>)
    requires Sorted(s) && NoEarlierThan(o.transitDepartureTimestamp, s)
    ensures Sorted([o] + s)
  {
    var r := [o] + s;
    forall i, j | 0 <= i < j < |r|
      ensures r[i].transitDepartureTimestamp <= r[j].transitDepartureTimestamp
    {
      if i > 0 {
        assert r[i] == s[i - 1] && r[j] == s[j - 1];
      } else {
        assert r[j] == s[j - 1];
      }
    }
  }

  /** Inserts `o` in front of the first element whose timestamp is not smaller. */
  function Insert(o: TransitOption, s: seq<TransitOption>): (r: seq<TransitOption>)
    ensures multiset(r) == multiset(s) + multiset{o}
    ensures |r| == |s| + 1
  {
    if s == [] || o.transitDepartureTimestamp <= s[0].transitDepartureTimestamp then [o] + s
    else
      assert s == [s[0]] + s[1..];
      [s[0]] + Insert(o, s[1..])
  }

  /** Inserting into a sorted list keeps it sorted, and keeps any lower bound that `o` respects. */
  lemma {:induction false} InsertSorted(o: TransitOption, s: seq<TransitOption>, t: int)
    requires Sorted(s) && NoEarlierThan(t, s) && t <= o.transitDepartureTimestamp
    ensures Sorted(Insert(o, s)) && NoEarlierThan(t, Insert(o, s))
  {
    if s == [] || o.transitDepartureTimestamp <= s[0].transitDepartureTimestamp {
      assert NoEarlierThan(o.transitDepartureTimestamp, s);
      SortedCons(o, s);
    } else {
      var s0 := s[0].transitDepartureTimestamp;
      assert NoEarlierThan(s0, s[1..]);
      InsertSorted(o, s[1..], s0);
      SortedCons(s[0], Insert(o, s[1..]));
    }
  }

  /** A stable sort by timestamp (insertion sort). */
  function SortByTimestamp(s: seq<TransitOption>): (r: seq<TransitOption>)
    ensures Sorted(r)
    ensures multiset(r) == multiset(s)
    ensures |r| == |s|
  {
    if s == [] then []
    else
      assert s == [s[0]] + s[1..];
      var rest := SortByTimestamp(s[1..]);
      var t := s[0].transitDepartureTimestamp;
      var bound := if rest != [] && rest[0].transitDepartureTimestamp < t then rest[0].transitDepartureTimestamp else t;
      assert NoEarlierThan(bound, rest);
      InsertSorted(s[0], rest, bound);
      Insert(s[0], rest)
  }

  lemma WithTimestampCons(o: TransitOption, s: seq<TransitOption>, k: int)
    ensures WithTimestamp([o] + s, k) == (if o.transitDepartureTimestamp == k then [o] else []) + WithTimestamp(s, k)
  {
    assert ([o] + s)[0] == o;
    assert ([o] + s)[1..] == s;
  }

  /** Inserting `o` puts it before every option that already has its timestamp. */
  lemma {:induction false} InsertKeepsTies(o: TransitOption, s: seq<TransitOption>, k: int)
    ensures WithTimestamp(Insert(o, s), k) ==
      (if o.transitDepartureTimestamp == k then [o] else []) + WithTimestamp(s, k)
  {
    if s == [] || o.transitDepartureTimestamp <= s[0].transitDepartureTimestamp {
      assert Insert(o, s) == [o] + s;
      WithTimestampCons(o, s, k);
    } else {
      var rest := Insert(o, s[1..]);
      assert Insert(o, s) == [s[0]] + rest;
      InsertKeepsTies(o, s[1..], k);
      WithTimestampCons(s[0], rest, k);
      assert s == [s[0]] + s[1..];
      WithTimestampCons(s[0], s[1..], k);
      // `o` departs strictly later than s[0], so at most one of them has timestamp k.
      if s[0].transitDepartureTimestamp == k {
        assert WithTimestamp(rest, k) == WithTimestamp(s[1..], k);
      } else {
        assert WithTimestamp([s[0]] + rest, k) == WithTimestamp(rest, k);
        assert WithTimestamp(s, k) == WithTimestamp(s[1..], k);
      }
    }
  }

  /** Stability: options with equal timestamps keep their relative order. */
  lemma {:induction false} SortIsStable(s: seq<TransitOption>, k: int)
    ensures WithTimestamp(SortByTimestamp(s), k) == WithTimestamp(s, k)
  {
    if s != [] {
      SortIsStable(s[1..], k);
      InsertKeepsTies(s[0], SortByTimestamp(s[1..]), k);
    }
  }

  lemma FirstGroupNonEmpty(s: seq<TransitOption>)
    requires s != []
    ensures WithTimestamp(s, s[0].transitDepartureTimestamp) != []
  {
  }

  /** Two sorted lists with the same groups start with the same option. */
  lemma HeadsAgree(a: seq<TransitOption>, b: seq<TransitOption>)
    requires a != [] && b != [] && Sorted(a) && Sorted(b)
    requires forall k :: WithTimestamp(a, k) == WithTimestamp(b, k)
    ensures a[0] == b[0]
  {
    var ka, kb := a[0].transitDepartureTimestamp, b[0].transitDepartureTimestamp;
    assert b[0] in WithTimestamp(b, kb);
    WithTimestampMember(a, kb, b[0]);
    assert a[0] in WithTimestamp(a, ka);
    WithTimestampMember(b, ka, a[0]);
    assert ka == kb;
    assert WithTimestamp(a, ka)[0] == a[0];
    assert WithTimestamp(b, ka)[0] == b[0];
  }

  /** Removing the same first option leaves the groups equal. */
  lemma TailsAgree(a: seq<TransitOption>, b: seq<TransitOption>, k: int)
    requires a != [] && b != [] && a[0] == b[0]
    requires WithTimestamp(a, k) == WithTimestamp(b, k)
    ensures WithTimestamp(a[1..], k) == WithTimestamp(b[1..], k)
  {
    if k == a[0].transitDepartureTimestamp {
      assert WithTimestamp(a, k) == [a[0]] + WithTimestamp(a[1..], k);
      assert WithTimestamp(b, k) == [b[0]] + WithTimestamp(b[1..], k);
      assert WithTimestamp(a[1..], k) == WithTimestamp(a, k)[1..];
    } else {
      assert WithTimestamp(a, k) == WithTimestamp(a[1..], k);
      assert WithTimestamp(b, k) == WithTimestamp(b[1..], k);
    }
  }

  /**
   * Being sorted and keeping the order within every timestamp determines a
   * list completely: any stable sort gives the same result as SortByTimestamp.
   */
  lemma {:induction false} StableOrderIsUnique(a: seq<TransitOption>, b: seq<TransitOption>)
    requires Sorted(a) && Sorted(b)
    requires forall k :: WithTimestamp(a, k) == WithTimestamp(b, k)
    ensures a == b
  {
    if a == [] && b == [] {
    } else if a == [] {
      FirstGroupNonEmpty(b);
      assert false;
    } else if b == [] {
      FirstGroupNonEmpty(a);
      assert false;
    } else {
      HeadsAgree(a, b);
      forall k ensures WithTimestamp(a[1..], k) == WithTimestamp(b[1..], k) {
        TailsAgree(a, b, k);
      }
      StableOrderIsUnique(a[1..], b[1..]);
      assert a == [a[0]] + a[1..];
      assert b == [b[0]] + b[1..];
    }
  }

  /**
   * Whatever stable sort produced `r` from `s` (Python's list.sort is one),
   * `r` is SortByTimestamp(s).
   */
  lemma StableSortIsSortByTimestamp(s: seq<TransitOption>, r: seq<TransitOption>)
    requires Sorted(r)
    requires forall k :: WithTimestamp(r, k) == WithTimestamp(s, k)
    ensures r == SortByTimestamp(s)
  {
    forall k ensures WithTimestamp(r, k) == WithTimestamp(SortByTimestamp(s), k) {
      SortIsStable(s, k);
    }
    StableOrderIsUnique(r, SortByTimestamp(s));
  }
}

/** Whether a decoder keeps up with a profile: the 95th percentile of its decode times against a budget. Times are
    whole numbers of some unit, and the budget, four fifths of a frame period, is given. */
module DecodeTiming {

  import opened Protocol

  ghost predicate Ascending(s: seq<nat>) {
    forall i, j | 0 <= i < j < |s| :: s[i] <= s[j]
  }

  /** How many times are within the budget. */
  function Within(s: seq<nat>, budget: nat): (n: nat)
    ensures n <= |s|
  {
    if s == [] then 0 else (if s[0] <= budget then 1 else 0) + Within(s[1..], budget)
  }

  lemma {:induction false} WithinJoins(a: seq<nat>, b: seq<nat>, budget: nat)
    ensures Within(a + b, budget) == Within(a, budget) + Within(b, budget)
  {
    if a == [] {
      assert a + b == b;
    } else {
      WithinJoins(a[1..], b, budget);
      assert (a + b)[1..] == a[1..] + b;
    }
  }

  /** Counting does not depend on the order. */
  lemma {:induction false} WithinAnyOrder(s: seq<nat>, t: seq<nat>, budget: nat)
    requires multiset(s) == multiset(t)
    ensures Within(s, budget) == Within(t, budget)
  {
    SameSize(s, t);
    if s != [] {
      var rest := WithoutFirst(s, t, budget);
      hide Within;
      WithinAnyOrder(s[1..], rest, budget);
    }
  }

  lemma SameSize(s: seq<nat>, t: seq<nat>)
    requires multiset(s) == multiset(t)
    ensures |s| == |t|
  {
    assert |s| == |multiset(s)| == |multiset(t)| == |t|;
  }

  /** `t` without one occurrence of the first element of `s`. */
  lemma WithoutFirst(s: seq<nat>, t: seq<nat>, budget: nat) returns (rest: seq<nat>)
    requires multiset(s) == multiset(t) && s != []
    ensures multiset(rest) == multiset(s[1..])
    ensures Within(t, budget) - Within(rest, budget) == Within(s, budget) - Within(s[1..], budget)
  {
    hide Within;
    var k := PlaceOf(s[0], s, t);
    rest := t[..k] + t[k + 1..];
    assert s[..0] + s[1..] == s[1..];
    TakenOut(s, 0, budget);
    OneTaken(t, k);
    OneTaken(s, 0);
    TakenOut(t, k, budget);
  }

  lemma OneTaken(t: seq<nat>, k: nat)
    requires k < |t|
    ensures multiset(t[..k] + t[k + 1..]) == multiset(t) - multiset{t[k]}
  {
    assert t == t[..k] + ([t[k]] + t[k + 1..]);
    assert multiset(t) == multiset(t[..k]) + multiset{t[k]} + multiset(t[k + 1..]);
  }

  lemma PlaceOf(x: nat, s: seq<nat>, t: seq<nat>) returns (k: nat)
    requires multiset(s) == multiset(t) && x in s
    ensures k < |t| && t[k] == x
  {
    assert x in multiset(s) && x in t;
    k :| k < |t| && t[k] == x;
  }

  lemma TakenOut(t: seq<nat>, k: nat, budget: nat)
    requires k < |t|
    ensures Within(t, budget) == Within(t[..k] + t[k + 1..], budget) + if t[k] <= budget then 1 else 0
  {
    var before, after := t[..k], t[k + 1..];
    assert t == before + ([t[k]] + after);
    WithinJoins(before, [t[k]] + after, budget);
    WithinJoins([t[k]], after, budget);
    WithinJoins(before, after, budget);
  }

  /** In an ascending list, an element is within the budget exactly when it and all before it are counted. */
  lemma {:induction false} SortedCount(s: seq<nat>, k: nat, budget: nat)
    requires Ascending(s) && k < |s|
    ensures s[k] <= budget <==> Within(s, budget) > k
  {
    if s[0] > budget {
      NoneWithin(s, budget);
    } else if k > 0 {
      SortedCount(s[1..], k - 1, budget);
    }
  }

  lemma {:induction false} NoneWithin(s: seq<nat>, budget: nat)
    requires Ascending(s) && (s == [] || s[0] > budget)
    ensures Within(s, budget) == 0
  {
    if s != [] {
      assert |s| > 1 ==> s[0] <= s[1];
      NoneWithin(s[1..], budget);
    }
  }

  // ----- Sorting -----

  method SwapBack(ordered: array<nat>, j: nat)
    requires 0 < j < ordered.Length
    modifies ordered
    ensures ordered[j - 1] == old(ordered[j]) && ordered[j] == old(ordered[j - 1])
    ensures forall i | 0 <= i < ordered.Length && i != j && i != j - 1 :: ordered[i] == old(ordered[i])
    ensures multiset(ordered[..]) == multiset(old(ordered[..]))
  {
    ordered[j - 1], ordered[j] := ordered[j], ordered[j - 1];
  }

  /** Insert the element at `n` among the sorted ones before it. */
  method SinkLast(ordered: array<nat>, n: nat)
    requires n < ordered.Length && Ascending(ordered[..n])
    modifies ordered
    ensures Ascending(ordered[..n + 1])
    ensures multiset(ordered[..]) == multiset(old(ordered[..]))
  {
    var j := n;
    while j > 0 && ordered[j - 1] > ordered[j]
      invariant j <= n
      invariant multiset(ordered[..]) == multiset(old(ordered[..]))
      invariant forall a, b | 0 <= a < b <= n && b != j :: ordered[a] <= ordered[b]
    {
      SwapBack(ordered, j);
      j := j - 1;
    }
  }

  /** A sorted copy. */
  method Sort(timings: seq<nat>) returns (ordered: array<nat>)
    ensures fresh(ordered) && Ascending(ordered[..]) && multiset(ordered[..]) == multiset(timings)
  {
    ordered := new nat[|timings|](i requires 0 <= i < |timings| => timings[i]);
    assert ordered[..] == timings;
    for n := 0 to ordered.Length
      invariant Ascending(ordered[..n]) && multiset(ordered[..]) == multiset(timings)
    {
      SinkLast(ordered, n);
    }
    assert ordered[..ordered.Length] == ordered[..];
  }

  // ----- The filter -----

  function CeilDiv(a: nat, b: nat): nat
    requires b > 0
  {
    if a % b == 0 then a / b else a / b + 1
  }

  /** At least 95 in 100 of the times, rounded up, are within the budget. */
  predicate MeetsTiming(timings: seq<nat>, fps: U8, budget: nat) {
    timings != [] && fps != 0 && Within(timings, budget) >= CeilDiv(95 * |timings|, 100)
  }

  method ProfileMeetsTiming(timings: seq<nat>, fps: U8, budget: nat) returns (meets: bool)
    ensures meets <==> MeetsTiming(timings, fps, budget)
  {
    if |timings| == 0 || fps == 0 {
      return false;
    }
    var ordered := Sort(timings);
    var ceiling := CeilDiv(ordered.Length * 95, 100);
    var p95Index := if ceiling == 0 then 0 else ceiling - 1;
    WithinAnyOrder(ordered[..], timings, budget);
    SameSize(ordered[..], timings);
    SortedCount(ordered[..], p95Index, budget);
    return ordered[p95Index] <= budget;
  }

  /** The verdict does not depend on the order of measurement. */
  lemma TimingAnyOrder(s: seq<nat>, t: seq<nat>, fps: U8, budget: nat)
    requires multiset(s) == multiset(t)
    ensures MeetsTiming(s, fps, budget) == MeetsTiming(t, fps, budget)
  {
    WithinAnyOrder(s, t, budget);
    SameSize(s, t);
  }

  /** Up to nineteen times, every one of them counts. */
  lemma FewTimesAllCount(timings: seq<nat>, fps: U8, budget: nat)
    requires 0 < |timings| < 20 && fps != 0
    ensures MeetsTiming(timings, fps, budget) <==> forall t | t in timings :: t <= budget
  {
    AllWithin(timings, budget);
  }

  lemma {:induction false} AllWithin(s: seq<nat>, budget: nat)
    ensures Within(s, budget) == |s| <==> forall t | t in s :: t <= budget
  {
    if s != [] {
      AllWithin(s[1..], budget);
      assert forall t | t in s :: t == s[0] || t in s[1..];
      assert s[0] in s && forall t | t in s[1..] :: t in s;
    }
  }
}

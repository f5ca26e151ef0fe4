/**
 A session's instances: numbered, kept in a map and in a list in order of addition, and closed for good with the last
 one. The functions say what each critical section does, the class is the session as it runs.
 */
module SessionCore {
  import opened Common

  // Instances are identified by the order in which they were added; numOf gives the number each one drew.
  type Iid = nat

  datatype Core = Core(closed: bool, nums: map<nat, Iid>, ordered: seq<Iid>, numOf: seq<nat>)

  const EMPTY := Core(false, map[], [], [])

  // The first number from k to 255 that no instance has.
  function FirstFree(nums: map<nat, Iid>, k: nat): (r: Option<nat>)
    requires 1 <= k <= 256
    ensures r.Some? ==> k <= r.value <= 255 && r.value !in nums
    ensures forall j :: k <= j <= 255 && (r.None? || j < r.value) ==> j in nums
    decreases 256 - k
  {
    if k == 256 then None else if k !in nums then Some(k) else FirstFree(nums, k + 1)
  }

  // A number is found exactly when one of the 255 is free, in particular while fewer than 255 instances are there.
  lemma NumberFound(nums: map<nat, Iid>)
    ensures FirstFree(nums, 1).Some? <==> exists k :: 1 <= k <= 255 && k !in nums
    ensures |nums| < 255 ==> FirstFree(nums, 1).Some?
  {
    if FirstFree(nums, 1).None? {
      assert OneTo(255) <= nums.Keys;
      SubsetSize(OneTo(255), nums.Keys);
    }
  }

  function OneTo(n: nat): (s: set<nat>)
    ensures |s| == n && forall k :: k in s <==> 1 <= k <= n
  {
    if n == 0 then {} else OneTo(n - 1) + {n}
  }

  lemma SubsetSize<T>(a: set<T>, b: set<T>)
    requires a <= b
    ensures |a| <= |b|
  {
    assert b == a + (b - a);
  }

  datatype Added = Refused | Exhausted | Joined(core: Core, i: Iid)

  // AddInstance: refused once the session is closed; with all 255 numbers taken it panics.
  function Add(c: Core): Added {
    if c.closed then Refused
    else
      match FirstFree(c.nums, 1)
      case None => Exhausted
      case Some(k) =>
        var i := |c.numOf|;
        Joined(c.(nums := c.nums[k := i], ordered := c.ordered + [i], numOf := c.numOf + [k]), i)
  }

  function RemoveFirst(list: seq<Iid>, i: Iid): seq<Iid> {
    if list == [] then [] else if list[0] == i then list[1..] else [list[0]] + RemoveFirst(list[1..], i)
  }

  // removeInstanceAndMaybeClose: the session closes in the step that takes its last instance.
  function Detach(c: Core, i: Iid): Core
    requires i < |c.numOf|
  {
    var nums := c.nums - {c.numOf[i]};
    Core(c.closed || nums == map[], nums, RemoveFirst(c.ordered, i), c.numOf)
  }

  // ---- The listing ----

  predicate Ascending(list: seq<Iid>) {
    forall j, k :: 0 <= j < k < |list| ==> list[j] < list[k]
  }

  // The list has exactly the instances of the map, once each and in order of addition.
  predicate Listed(c: Core) {
    && Ascending(c.ordered)
    && (forall i <- c.ordered :: i < |c.numOf| && c.numOf[i] in c.nums && c.nums[c.numOf[i]] == i)
    && (forall k <- c.nums :: 1 <= k <= 255 && c.nums[k] in c.ordered && c.numOf[c.nums[k]] == k)
    && (c.ordered == [] && c.numOf != [] ==> c.closed)
  }

  // What the search for an instance amounts to.
  lemma {:induction false} RemoveFirstAt(list: seq<Iid>, i: Iid, k: nat)
    requires k <= |list| && i !in list[..k] && (k < |list| ==> list[k] == i)
    ensures RemoveFirst(list, i) == if k < |list| then list[..k] + list[k + 1..] else list
  {
    if k > 0 {
      var rest := list[1..];
      assert list[..k] == [list[0]] + rest[..k - 1];
      assert list[0] in list[..k] && i !in [list[0]] + rest[..k - 1];
      RemoveFirstAt(rest, i, k - 1);
      assert RemoveFirst(list, i) == [list[0]] + RemoveFirst(rest, i);
      if k < |list| {
        assert list[k + 1..] == rest[k..];
        assert [list[0]] + (rest[..k - 1] + rest[k..]) == ([list[0]] + rest[..k - 1]) + rest[k..];
      } else {
        assert list == [list[0]] + rest;
      }
    }
  }

  lemma RemoveFirstAscending(list: seq<Iid>, i: Iid)
    requires Ascending(list) && i in list
    ensures Ascending(RemoveFirst(list, i))
    ensures forall j :: j in RemoveFirst(list, i) <==> j in list && j != i
  {
    var k: nat :| k < |list| && list[k] == i;
    forall m | 0 <= m < k ensures list[m] != i { assert list[m] < list[k]; }
    RemoveFirstAt(list, i, k);
    CutAscending(list, k);
  }

  lemma CutAscending(list: seq<Iid>, k: nat)
    requires Ascending(list) && k < |list|
    ensures var r := list[..k] + list[k + 1..];
      Ascending(r) && forall j :: j in r <==> j in list && j != list[k]
  {
    var r := list[..k] + list[k + 1..];
    assert forall m :: 0 <= m < |r| ==> r[m] == list[if m < k then m else m + 1];
    forall j | j in list && j != list[k] ensures j in r {
      var m :| 0 <= m < |list| && list[m] == j;
      assert r[if m < k then m else m - 1] == j;
    }
    forall j | j in r ensures j in list && j != list[k] {
      var m :| 0 <= m < |r| && r[m] == j;
      assert j == list[if m < k then m else m + 1];
    }
  }

  lemma AddListed(c: Core)
    requires Listed(c) && Add(c).Joined?
    ensures var c' := Add(c).core;
      Listed(c') && c'.ordered == c.ordered + [|c.numOf|] && |c'.nums| == |c.nums| + 1
  {
    var c' := Add(c).core;
    assert forall i <- c.ordered :: i < |c.numOf|;
    assert forall k :: 0 <= k < |c.ordered| ==> c.ordered[k] in c.ordered;
    forall i <- c'.ordered ensures i < |c'.numOf| && c'.numOf[i] in c'.nums && c'.nums[c'.numOf[i]] == i {
      if i < |c.numOf| { assert i in c.ordered; }
    }
  }

  lemma DetachListed(c: Core, i: Iid)
    requires Listed(c) && i in c.ordered
    ensures Listed(Detach(c, i))
    ensures forall j :: j in Detach(c, i).ordered <==> j in c.ordered && j != i
    ensures Detach(c, i).nums == map[] <==> Detach(c, i).ordered == []
  {
    var c' := Detach(c, i);
    RemoveFirstAscending(c.ordered, i);
    DetachMap(c, i);
    EmptyTogether(c');
  }

  // The map and the list lose the same instance.
  lemma DetachMap(c: Core, i: Iid)
    requires Listed(c) && i in c.ordered
    requires forall j :: j in Detach(c, i).ordered <==> j in c.ordered && j != i
    ensures var c' := Detach(c, i);
      && (forall k <- c'.nums :: 1 <= k <= 255 && c'.nums[k] in c'.ordered && c'.numOf[c'.nums[k]] == k)
      && (forall j <- c'.ordered :: j < |c'.numOf| && c'.numOf[j] in c'.nums && c'.nums[c'.numOf[j]] == j)
  {
    var c' := Detach(c, i);
    forall k <- c'.nums ensures c'.nums[k] in c'.ordered { assert c.numOf[c.nums[k]] == k; }
    forall j <- c'.ordered ensures c'.numOf[j] in c'.nums && c'.nums[c'.numOf[j]] == j {
      assert j in c.ordered && c.nums[c.numOf[j]] == j && c.nums[c.numOf[i]] == i;
    }
  }

  lemma EmptyTogether(c: Core)
    requires forall i <- c.ordered :: i < |c.numOf| && c.numOf[i] in c.nums
    requires forall k <- c.nums :: c.nums[k] in c.ordered
    ensures c.nums == map[] <==> c.ordered == []
  {
    if c.ordered != [] { assert c.ordered[0] in c.ordered; }
    if c.nums != map[] { var k :| k in c.nums; assert c.nums[k] in c.ordered; }
  }

  // ---- The session as it runs ----

  class Session {
    var closed: bool
    var nums: map<nat, Iid>
    var ordered: seq<Iid>
    var numOf: seq<nat>

    ghost function State(): Core
      reads this
    {
      Core(closed, nums, ordered, numOf)
    }

    constructor ()
      ensures State() == EMPTY
    {
      closed, nums, ordered, numOf := false, map[], [], [];
    }

    // generateInstanceNum: an 8-bit counter from 1 that stops when it wraps to 0.
    method GenerateInstanceNum() returns (num: Option<nat>)
      ensures num == FirstFree(nums, 1)
    {
      var k := 1;
      while k != 0
        invariant 0 <= k <= 255
        invariant FirstFree(nums, 1) == FirstFree(nums, if k == 0 then 256 else k)
        decreases if k == 0 then 0 else 256 - k
      {
        if k !in nums { return Some(k); }
        k := (k + 1) % 256;
      }
      return None;
    }

    method AddInstance() returns (r: Added)
      modifies this
      ensures r == Add(old(State()))
      ensures State() == if r.Joined? then r.core else old(State())
    {
      if closed { return Refused; }
      var num := GenerateInstanceNum();
      if num.None? { return Exhausted; }
      var i := |numOf|;
      numOf := numOf + [num.value];
      nums := nums[num.value := i];
      ordered := ordered + [i];
      return Joined(Core(closed, nums, ordered, numOf), i);
    }

    // removeInstanceLocked and the close that follows it in the same critical section.
    method RemoveInstanceAndMaybeClose(i: Iid) returns (last: bool)
      requires i < |numOf|
      modifies this
      ensures State() == Detach(old(State()), i) && last == (nums == map[])
    {
      nums := nums - {numOf[i]};
      var k := 0;
      while k < |ordered| && ordered[k] != i
        invariant 0 <= k <= |ordered| && i !in ordered[..k]
      {
        k := k + 1;
      }
      RemoveFirstAt(ordered, i, k);
      if k < |ordered| { ordered := ordered[..k] + ordered[k + 1..]; }
      if |nums| > 0 { return false; }
      if !closed { closed := true; }
      return true;
    }

    method MarkClosed()
      modifies this
      ensures State() == old(State()).(closed := true)
    {
      if closed { return; }
      closed := true;
    }
  }

  // A new instance gets the least free number from 1 to 255; it is refused if and only if the session is closed, and
  // there is no number if and only if all are taken.
  lemma AddExactly(c: Core)
    ensures Add(c) == Refused <==> c.closed
    ensures Add(c) == Exhausted <==> !c.closed && forall k :: 1 <= k <= 255 ==> k in c.nums
    ensures Add(c).Joined? ==>
              var k, i := Add(c).core.numOf[|c.numOf|], Add(c).i;
              && 1 <= k <= 255 && k !in c.nums && (forall j :: 1 <= j < k ==> j in c.nums)
              && i == |c.numOf|
              && Add(c).core == c.(nums := c.nums[k := i], ordered := c.ordered + [i], numOf := c.numOf + [k])
  {
    NumberFound(c.nums);
  }
}

/**
 The order in which the store yields documents. Identifiers are handed out
 from an increasing counter, so the store's natural (insertion) order is the
 ascending order of identifiers.
 */
module Keys {

  /** Every set of naturals holding `x` has a least element (descent from `x`). */
  lemma {:induction false} LeastFrom(s: set<nat>, x: nat)
    requires x in s
    ensures exists m :: m in s && forall k :: k in s ==> m <= k
    decreases x
  {
    if !(forall k :: k in s ==> x <= k) {
      var y :| y in s && y < x;
      LeastFrom(s, y);
    }
  }

  function Least(s: set<nat>): (m: nat)
    requires s != {}
    ensures m in s && forall k :: k in s ==> m <= k
  {
    var x :| x in s;
    LeastFrom(s, x);
    var m :| m in s && forall k :: k in s ==> m <= k;
    m
  }

  predicate Increasing(r: seq<nat>) {
    forall i, j :: 0 <= i < j < |r| ==> r[i] < r[j]
  }

  /** `r` lists the elements of `s`, smallest first, each exactly once. */
  predicate Lists(r: seq<nat>, s: set<nat>) {
    && |r| == |s|
    && (forall i :: 0 <= i < |r| ==> r[i] in s)
    && (forall k :: k in s ==> k in r)
    && Increasing(r)
  }

  /** Putting the least element in front of a listing of the others lists the whole set. */
  lemma ConsLeast(s: set<nat>, m: nat, rest: seq<nat>)
    requires m in s && forall k :: k in s ==> m <= k
    requires Lists(rest, s - {m})
    ensures Lists([m] + rest, s)
  {
    var r := [m] + rest;
    forall i | 0 <= i < |r|
      ensures r[i] in s
    {
      if i > 0 {
        assert r[i] == rest[i - 1];
      }
    }
    forall k | k in s
      ensures k in r
    {
      if k != m {
        assert k in s - {m};
      }
    }
    forall i, j | 0 <= i < j < |r|
      ensures r[i] < r[j]
    {
      assert r[j] == rest[j - 1] && r[j] in s - {m};
      if i > 0 {
        assert r[i] == rest[i - 1];
      }
    }
  }

  /** The elements of `s`, smallest first, each exactly once. */
  function Ascending(s: set<nat>): (r: seq<nat>)
    ensures |r| == |s|
    ensures forall i :: 0 <= i < |r| ==> r[i] in s
    ensures forall k :: k in s ==> k in r
    ensures forall i, j :: 0 <= i < j < |r| ==> r[i] < r[j]
    decreases |s|
  {
    if s == {} then []
    else
      var m := Least(s);
      var rest := Ascending(s - {m});
      ConsLeast(s, m, rest);
      [m] + rest
  }

  /** The elements of `ids` that are keys of `m` whose values satisfy `keep`, in their original order. */
  function Select<V>(ids: seq<nat>, m: map<nat, V>, keep: V -> bool): (r: seq<nat>)
    ensures |r| <= |ids|
    ensures forall i :: 0 <= i < |r| ==> r[i] in m && keep(m[r[i]])
    ensures forall j :: 0 <= j < |ids| && ids[j] in m && keep(m[ids[j]]) ==> ids[j] in r
    ensures Increasing(ids) ==> Increasing(r) && (|ids| > 0 ==> forall i :: 0 <= i < |r| ==> ids[0] <= r[i])
  {
    if |ids| == 0 then []
    else
      var rest := Select(ids[1..], m, keep);
      SelectStep(ids, m, keep, rest);
      if ids[0] in m && keep(m[ids[0]]) then [ids[0]] + rest else rest
  }

  /** One step of `Select`: what holds of the selection from `ids[1..]` carries over. */
  lemma SelectStep<V>(ids: seq<nat>, m: map<nat, V>, keep: V -> bool, rest: seq<nat>)
    requires |ids| > 0 && |rest| <= |ids| - 1
    requires forall i :: 0 <= i < |rest| ==> rest[i] in m && keep(m[rest[i]])
    requires forall j :: 0 <= j < |ids[1..]| && ids[1..][j] in m && keep(m[ids[1..][j]]) ==> ids[1..][j] in rest
    requires Increasing(ids[1..]) ==> Increasing(rest) && (|ids[1..]| > 0 ==> forall i :: 0 <= i < |rest| ==> ids[1..][0] <= rest[i])
    ensures var r := if ids[0] in m && keep(m[ids[0]]) then [ids[0]] + rest else rest;
      && |r| <= |ids|
      && (forall i :: 0 <= i < |r| ==> r[i] in m && keep(m[r[i]]))
      && (forall j :: 0 <= j < |ids| && ids[j] in m && keep(m[ids[j]]) ==> ids[j] in r)
      && (Increasing(ids) ==> Increasing(r) && forall i :: 0 <= i < |r| ==> ids[0] <= r[i])
  {
    var r := if ids[0] in m && keep(m[ids[0]]) then [ids[0]] + rest else rest;
    forall j | 0 <= j < |ids| && ids[j] in m && keep(m[ids[j]])
      ensures ids[j] in r
    {
      if j > 0 {
        assert ids[j] == ids[1..][j - 1];
      }
    }
    if Increasing(ids) {
      assert Increasing(ids[1..]);
      if |ids| > 1 {
        assert ids[1..][0] == ids[1] && ids[0] < ids[1];
      }
      assert forall i :: 0 <= i < |rest| ==> ids[0] < rest[i];
      if r != rest {
        forall i, j | 0 <= i < j < |r|
          ensures r[i] < r[j]
        {
          assert r[j] == rest[j - 1];
          if i > 0 {
            assert r[i] == rest[i - 1];
          }
        }
        forall i | 0 <= i < |r|
          ensures ids[0] <= r[i]
        {
          if i > 0 {
            assert r[i] == rest[i - 1];
          }
        }
      }
    }
  }

  /** The keys of `m` whose values satisfy `keep`, smallest first. */
  function InOrder<V>(m: map<nat, V>, keep: V -> bool): (r: seq<nat>)
    ensures forall i :: 0 <= i < |r| ==> r[i] in m && keep(m[r[i]])
    ensures forall k :: k in m && keep(m[k]) ==> k in r
    ensures Increasing(r)
  {
    var ids := Ascending(m.Keys);
    assert forall k :: k in m ==> exists j :: 0 <= j < |ids| && ids[j] == k;
    Select(ids, m, keep)
  }
}

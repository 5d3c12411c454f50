/**
 * The static helpers of the plugin manager: a substring test and the
 * classifier that decides whether the version a plugin page advertises is
 * newer than the installed one, and whether the change is a minor or a
 * major release.
 */
module Utils {
  import opened Results

  // ---------------------------------------------------------------------
  // Substring test
  // ---------------------------------------------------------------------

  /** `s` occurs in `h` starting at position `i`. */
  predicate OccursAt(h: string, s: string, i: int)
  {
    0 <= i && i + |s| <= |h| && h[i..i + |s|] == s
  }

  /**
   * PHP's `strpos`: the first position at which `s` occurs in `h`, or None.
   * An empty needle is found at position 0.
   */
  method Strpos(h: string, s: string) returns (pos: Option<nat>)
    ensures pos.Some? ==> OccursAt(h, s, pos.value)
    ensures pos.Some? ==> forall j :: 0 <= j < pos.value ==> !OccursAt(h, s, j)
    ensures pos.None? ==> forall j :: !OccursAt(h, s, j)
  {
    if |s| > |h| {
      return None;
    }
    var i := 0;
    while i + |s| <= |h|
      invariant 0 <= i <= |h| - |s| + 1
      invariant forall j :: 0 <= j < i ==> !OccursAt(h, s, j)
    {
      if h[i..i + |s|] == s {
        return Some(i);
      }
      i := i + 1;
    }
    return None;
  }

  /** `contains(h, s)`: whether `strpos(h, s)` finds anything. */
  function Contains(h: string, s: string): (r: bool)
    ensures r <==> exists i :: OccursAt(h, s, i)
  {
    if |s| > |h| then false
    else if h[..|s|] == s then
      assert OccursAt(h, s, 0);
      true
    else
      var r := Contains(h[1..], s);
      ShiftOccurrence(h, s);
      r
  }

  /** When `s` does not start `h`, its occurrences in `h` are those in `h[1..]`, shifted by one. */
  lemma ShiftOccurrence(h: string, s: string)
    requires |h| > 0 && !OccursAt(h, s, 0)
    ensures (exists i :: OccursAt(h, s, i)) <==> (exists i :: OccursAt(h[1..], s, i))
  {
    if exists i :: OccursAt(h, s, i) {
      var i :| OccursAt(h, s, i);
      assert h[1..][i - 1..i - 1 + |s|] == h[i..i + |s|];
      assert OccursAt(h[1..], s, i - 1);
    }
    if exists i :: OccursAt(h[1..], s, i) {
      var i :| OccursAt(h[1..], s, i);
      assert h[1..][i..i + |s|] == h[i + 1..i + 1 + |s|];
      assert OccursAt(h, s, i + 1);
    }
  }

  /** `contains` answers exactly when `strpos` finds a position. */
  method ContainsAgreesWithStrpos(h: string, s: string) returns (found: bool)
    ensures found == Contains(h, s)
    ensures found ==> exists i :: OccursAt(h, s, i)
  {
    var pos := Strpos(h, s);
    found := pos.Some?;
  }

  /** A string contains every string it is built around. */
  lemma ContainsInfix(a: string, x: string, b: string)
    ensures Contains(a + x + b, x)
  {
    var h := a + x + b;
    assert h[|a|..|a| + |x|] == x;
    assert OccursAt(h, x, |a|);
  }

  // ---------------------------------------------------------------------
  // Version classifier
  // ---------------------------------------------------------------------

  /** One dot-separated component of an installed version: a number, or the wildcard `x`. */
  datatype Part = Num(n: nat) | Wildcard

  /** What `isGreater` returns: `false`, `1` (last component raised) or `2` (an earlier one). */
  datatype Bump = NotGreater | Minor | Major

  /**
   * What the comparison at one position sees on the installed side. Past the
   * end of the installed version the source reads an unset array slot, PHP's
   * `null`, which compares as the empty string: below every digit string.
   */
  datatype Slot = Absent | Value(n: nat)

  function SlotAt(local: seq<Part>, k: nat): (s: Slot)
  {
    if k < |local| then
      match local[k]
      case Num(n) => Value(n)
      case Wildcard => Value(0)
    else Absent
  }

  /** The remote component is below the installed one. */
  predicate RemoteBelow(r: nat, s: Slot)
  {
    s.Value? && r < s.n
  }

  /** The remote component is above the installed one. */
  predicate RemoteAbove(r: nat, s: Slot)
  {
    s.Absent? || r > s.n
  }

  /** A remote version written the way the installed ledger keeps it. */
  function AsInstalled(v: seq<nat>): (w: seq<Part>)
  {
    seq(|v|, i requires 0 <= i < |v| => Num(v[i]))
  }

  /**
   * `isGreater(remote, local)`: textually identical versions are never
   * greater; otherwise the components are compared position by position.
   */
  function IsGreater(remote: seq<nat>, local: seq<Part>): (r: Bump)
    ensures r == Major ==> exists j :: 0 <= j < |remote| - 1 && RemoteAbove(remote[j], SlotAt(local, j))
    ensures r == Minor ==> 0 < |remote| && RemoteAbove(remote[|remote| - 1], SlotAt(local, |remote| - 1))
  {
    if local == AsInstalled(remote) then NotGreater else Walk(remote, local, 0)
  }

  /** The loop of `isGreater`, from position `k` on. */
  function Walk(remote: seq<nat>, local: seq<Part>, k: nat): (r: Bump)
    requires k <= |remote|
    ensures r == Major ==> exists j :: k <= j < |remote| - 1 && RemoteAbove(remote[j], SlotAt(local, j))
    ensures r == Minor ==> k < |remote| && RemoteAbove(remote[|remote| - 1], SlotAt(local, |remote| - 1))
    decreases |remote| - k
  {
    if k == |remote| then NotGreater
    else if RemoteBelow(remote[k], SlotAt(local, k)) then NotGreater
    else if RemoteAbove(remote[k], SlotAt(local, k)) then
      if k != |remote| - 1 then Major else Minor
    else Walk(remote, local, k + 1)
  }

  // ---------------------------------------------------------------------
  // The classifier against a reference definition
  // ---------------------------------------------------------------------

  /** Both versions agree at every position below `n`. */
  ghost predicate AgreeBelow(remote: seq<nat>, local: seq<Part>, n: int)
  {
    0 <= n <= |remote| && forall j :: 0 <= j < n ==> SlotAt(local, j) == Value(remote[j])
  }

  /** Position `k` is the first at which the versions differ. */
  ghost predicate FirstDifference(remote: seq<nat>, local: seq<Part>, k: int)
  {
    0 <= k < |remote| && AgreeBelow(remote, local, k) && SlotAt(local, k) != Value(remote[k])
  }

  /**
   * The classification the source documents, stated without the loop: at the
   * first difference, a smaller remote component is not greater, a larger one
   * is a major release unless it is the last remote component; with no
   * difference the remote version is not greater.
   */
  ghost function Reference(remote: seq<nat>, local: seq<Part>): Bump
  {
    if exists k :: FirstDifference(remote, local, k) && RemoteAbove(remote[k], SlotAt(local, k)) && k < |remote| - 1
    then Major
    else if exists k :: FirstDifference(remote, local, k) && RemoteAbove(remote[k], SlotAt(local, k)) && k == |remote| - 1
    then Minor
    else NotGreater
  }

  lemma {:induction false} WalkAgreeing(remote: seq<nat>, local: seq<Part>, k: nat)
    requires k <= |remote| && AgreeBelow(remote, local, |remote|)
    ensures Walk(remote, local, k) == NotGreater
    decreases |remote| - k
  {
    if k < |remote| {
      assert SlotAt(local, k) == Value(remote[k]);
      WalkAgreeing(remote, local, k + 1);
    }
  }

  lemma {:induction false} WalkAtDifference(remote: seq<nat>, local: seq<Part>, k: nat, d: nat)
    requires k <= d && FirstDifference(remote, local, d)
    ensures Walk(remote, local, k) ==
      if RemoteBelow(remote[d], SlotAt(local, d)) then NotGreater
      else if d < |remote| - 1 then Major
      else Minor
    decreases d - k
  {
    if k < d {
      assert SlotAt(local, k) == Value(remote[k]);
      WalkAtDifference(remote, local, k + 1, d);
    }
  }

  /** The early textual-equality exit agrees with the loop: it never changes the answer. */
  lemma EarlyExitAgreesWithLoop(remote: seq<nat>, local: seq<Part>)
    ensures IsGreater(remote, local) == Walk(remote, local, 0)
  {
    if local == AsInstalled(remote) {
      assert AgreeBelow(remote, local, |remote|);
      WalkAgreeing(remote, local, 0);
    }
  }

  /** If the versions do not agree on the first `n` positions, a first difference exists below `n`. */
  lemma {:induction false} FirstDifferenceExists(remote: seq<nat>, local: seq<Part>, n: nat)
    requires n <= |remote| && !AgreeBelow(remote, local, n)
    ensures exists k :: k < n && FirstDifference(remote, local, k)
  {
    if AgreeBelow(remote, local, n - 1) {
      assert FirstDifference(remote, local, n - 1);
    } else {
      FirstDifferenceExists(remote, local, n - 1);
    }
  }

  /** The first difference is unique. */
  lemma FirstDifferenceUnique(remote: seq<nat>, local: seq<Part>, k: nat, k': nat)
    requires FirstDifference(remote, local, k) && FirstDifference(remote, local, k')
    ensures k == k'
  {
  }

  /** At the first difference, the classifier answers as the source documents. */
  lemma IsGreaterAtFirstDifference(remote: seq<nat>, local: seq<Part>, k: nat)
    requires FirstDifference(remote, local, k)
    ensures IsGreater(remote, local) ==
      if RemoteBelow(remote[k], SlotAt(local, k)) then NotGreater
      else if k < |remote| - 1 then Major
      else Minor
  {
    EarlyExitAgreesWithLoop(remote, local);
    WalkAtDifference(remote, local, 0, k);
  }

  /**
   * With every remote component matched by the installed one, the remote
   * version is not greater, even when the installed version is longer.
   */
  lemma IsGreaterWhenAllAgree(remote: seq<nat>, local: seq<Part>)
    requires AgreeBelow(remote, local, |remote|)
    ensures IsGreater(remote, local) == NotGreater
  {
    EarlyExitAgreesWithLoop(remote, local);
    WalkAgreeing(remote, local, 0);
  }

  /** The classifier is the reference classification, on every input. */
  lemma IsGreaterMatchesReference(remote: seq<nat>, local: seq<Part>)
    ensures IsGreater(remote, local) == Reference(remote, local)
  {
    if exists k :: FirstDifference(remote, local, k) {
      var k :| FirstDifference(remote, local, k);
      forall k' | FirstDifference(remote, local, k')
        ensures k' == k
      {
        FirstDifferenceUnique(remote, local, k, k');
      }
      IsGreaterAtFirstDifference(remote, local, k);
    } else if !AgreeBelow(remote, local, |remote|) {
      FirstDifferenceExists(remote, local, |remote|);
    } else {
      IsGreaterWhenAllAgree(remote, local);
    }
  }

  /** A wildcard component `x` is compared exactly as the number 0. */
  lemma WildcardReadsAsZero(remote: seq<nat>, local: seq<Part>, k: nat)
    requires k < |local|
    ensures IsGreater(remote, local[k := Wildcard]) == IsGreater(remote, local[k := Num(0)])
  {
    var a, b := local[k := Wildcard], local[k := Num(0)];
    assert forall j :: SlotAt(a, j) == SlotAt(b, j);
    EarlyExitAgreesWithLoop(remote, a);
    EarlyExitAgreesWithLoop(remote, b);
    WalkSameSlots(remote, a, b, 0);
  }

  lemma {:induction false} WalkSameSlots(remote: seq<nat>, a: seq<Part>, b: seq<Part>, k: nat)
    requires k <= |remote|
    requires forall j :: SlotAt(a, j) == SlotAt(b, j)
    ensures Walk(remote, a, k) == Walk(remote, b, k)
    decreases |remote| - k
  {
    if k < |remote| {
      WalkSameSlots(remote, a, b, k + 1);
    }
  }

  /** A numeric version matched by another at each of its positions is a prefix of it. */
  lemma AgreeingIsPrefix(a: seq<nat>, b: seq<nat>)
    requires AgreeBelow(a, AsInstalled(b), |a|)
    ensures |a| <= |b| && a == b[..|a|]
  {
    // position |b| is past the end of b, so a cannot reach it
    assert SlotAt(AsInstalled(b), |b|) == Absent;
    forall j | 0 <= j < |a|
      ensures a[j] == b[j]
    {
      assert SlotAt(AsInstalled(b), j) == Value(a[j]);
    }
  }

  /**
   * For two plain numeric versions, each is not greater than the other
   * exactly when they are the same version.
   */
  lemma NotGreaterBothWaysIffEqual(a: seq<nat>, b: seq<nat>)
    ensures (IsGreater(a, AsInstalled(b)) == NotGreater && IsGreater(b, AsInstalled(a)) == NotGreater)
            <==> a == b
  {
    if a == b {
      IsGreaterWhenAllAgree(a, AsInstalled(b));
    } else if AgreeBelow(a, AsInstalled(b), |a|) {
      // b extends a, and b is longer: b is greater than a past a's end
      AgreeingIsPrefix(a, b);
      assert AgreeBelow(b, AsInstalled(a), |a|);
      assert FirstDifference(b, AsInstalled(a), |a|);
      IsGreaterAtFirstDifference(b, AsInstalled(a), |a|);
    } else {
      FirstDifferenceExists(a, AsInstalled(b), |a|);
      var k :| k < |a| && FirstDifference(a, AsInstalled(b), k);
      IsGreaterAtFirstDifference(a, AsInstalled(b), k);
      if k < |b| {
        assert FirstDifference(b, AsInstalled(a), k);
        IsGreaterAtFirstDifference(b, AsInstalled(a), k);
      }
    }
  }

  /** A remote version that is greater than an installed one is never overtaken by it. */
  lemma NoMutualBump(a: seq<nat>, b: seq<nat>)
    ensures IsGreater(a, AsInstalled(b)) != NotGreater ==> IsGreater(b, AsInstalled(a)) == NotGreater
  {
    if AgreeBelow(a, AsInstalled(b), |a|) {
      IsGreaterWhenAllAgree(a, AsInstalled(b));
    } else {
      FirstDifferenceExists(a, AsInstalled(b), |a|);
      var k :| k < |a| && FirstDifference(a, AsInstalled(b), k);
      IsGreaterAtFirstDifference(a, AsInstalled(b), k);
      if k < |b| {
        assert FirstDifference(b, AsInstalled(a), k);
        IsGreaterAtFirstDifference(b, AsInstalled(a), k);
      } else {
        assert AgreeBelow(b, AsInstalled(a), |b|);
        IsGreaterWhenAllAgree(b, AsInstalled(a));
      }
    }
  }

  /** The documented examples, with the remote version first and the installed one second. */
  lemma DocumentedExamples()
    ensures IsGreater([3, 54, 7], AsInstalled([2, 3, 6])) == Major
    ensures IsGreater([1, 2, 3], AsInstalled([1, 2, 3])) == NotGreater
    ensures IsGreater([1, 2, 4], AsInstalled([1, 2, 3])) == Minor
    ensures IsGreater([2, 0, 0], AsInstalled([1, 2, 3])) == Major
    ensures IsGreater([1, 1, 9], AsInstalled([1, 2, 0])) == NotGreater
    ensures IsGreater([3, 0], [Num(2), Wildcard]) == Major
    ensures IsGreater([2, 1], [Num(2), Wildcard]) == Minor
  {
    EarlyExitAgreesWithLoop([3, 54, 7], AsInstalled([2, 3, 6]));
    EarlyExitAgreesWithLoop([1, 2, 4], AsInstalled([1, 2, 3]));
    EarlyExitAgreesWithLoop([2, 0, 0], AsInstalled([1, 2, 3]));
    EarlyExitAgreesWithLoop([1, 1, 9], AsInstalled([1, 2, 0]));
    EarlyExitAgreesWithLoop([3, 0], [Num(2), Wildcard]);
    EarlyExitAgreesWithLoop([2, 1], [Num(2), Wildcard]);
  }
}

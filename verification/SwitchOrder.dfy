/**
 The order in which colliding switches are given their places
 (custom_components/smartthings_web/__init__.py:1269-1283): rows at their plain name first, then by
 room key, then by unique ID.
 */
module SwitchOrder {
  import opened SwitchTargets
  import opened SwitchGroups
  import FallbackRows

  /** Up to some place the strings agree, and there the first ends or has the lesser character. */
  predicate AgreesUntil(a: string, b: string, n: nat) {
    n <= |a| && n <= |b| && a[..n] == b[..n] && (if n < |a| then n < |b| && a[n] < b[n] else n < |b|)
  }

  predicate IsLess(a: string, b: string) { exists n: nat :: n <= |a| && AgreesUntil(a, b, n) }

  lemma {:induction false} BeforeIsLess(a: string, b: string)
    ensures FallbackRows.Before(a, b) <==> IsLess(a, b)
    decreases |a|
  {
    if a == "" || b == "" {
      if a == "" && b != "" { assert AgreesUntil(a, b, 0); }
    } else {
      BeforeIsLess(a[1..], b[1..]);
      if a[0] < b[0] { assert AgreesUntil(a, b, 0); }
      if n: nat :| n <= |a[1..]| && AgreesUntil(a[1..], b[1..], n) && a[0] == b[0] {
        assert a[..n + 1] == [a[0]] + a[1..][..n] && b[..n + 1] == [b[0]] + b[1..][..n];
        assert AgreesUntil(a, b, n + 1);
      }
      if n: nat :| n <= |a| && AgreesUntil(a, b, n) && n > 0 {
        assert a[..n][0] == b[..n][0] && a[1..][..n - 1] == a[..n][1..] && b[1..][..n - 1] == b[..n][1..];
        assert AgreesUntil(a[1..], b[1..], n - 1);
      }
    }
  }

  lemma {:induction false} BeforeIsOrder(a: string, b: string, c: string)
    ensures FallbackRows.Before(a, b) && FallbackRows.Before(b, c) ==> FallbackRows.Before(a, c)
    ensures !(FallbackRows.Before(a, b) && FallbackRows.Before(b, a))
    ensures FallbackRows.Before(a, b) || FallbackRows.Before(b, a) || a == b
    decreases |a|
  {
    if a != "" && b != "" {
      if c != "" { BeforeIsOrder(a[1..], b[1..], c[1..]); } else { BeforeIsOrder(a[1..], b[1..], b[1..]); }
      assert a == [a[0]] + a[1..] && b == [b[0]] + b[1..];
    }
  }

  lemma SortsIsOrder(x: Switch, y: Switch, z: Switch)
    ensures SortsBefore(x, y) && SortsBefore(y, z) ==> SortsBefore(x, z)
    ensures !(SortsBefore(x, y) && SortsBefore(y, x))
    ensures x.row.uniqueId != y.row.uniqueId ==> SortsBefore(x, y) || SortsBefore(y, x)
  {
    BeforeIsOrder(x.roomKey, y.roomKey, z.roomKey);
    BeforeIsOrder(x.row.uniqueId, y.row.uniqueId, z.row.uniqueId);
  }

  predicate Ascends(s: seq<Switch>) { forall j, k :: 0 <= j < k < |s| ==> SortsBefore(s[j], s[k]) }

  lemma {:induction false} InsertAscends(x: Switch, s: seq<Switch>)
    requires Ascends(s) && forall y :: y in s ==> y.row.uniqueId != x.row.uniqueId
    ensures Ascends(InsertSwitch(x, s))
  {
    if s == [] {
    } else if SortsBefore(x, s[0]) {
      forall k | 0 <= k < |s|
        ensures SortsBefore(x, s[k])
      {
        SortsIsOrder(x, s[0], s[k]);
      }
    } else {
      InsertAscends(x, s[1..]);
      InsertMembers(x, s[1..]);
      SortsIsOrder(x, s[0], x);
      assert s[0] in s;
      var rest := InsertSwitch(x, s[1..]);
      forall k | 0 <= k < |rest|
        ensures SortsBefore(s[0], rest[k])
      {
        assert rest[k] in rest;
        if rest[k] != x {
          var m :| 0 <= m < |s[1..]| && s[1..][m] == rest[k];
          assert s[m + 1] == rest[k];
        }
      }
    }
  }

  lemma {:induction false} SortedAscends(s: seq<Switch>)
    requires NoTwins(s)
    ensures Ascends(Sorted(s))
  {
    if s != [] {
      var n := |s| - 1;
      SortedAscends(s[..n]);
      SortedMembers(s[..n]);
      InsertAscends(s[n], Sorted(s[..n]));
    }
  }

  /** The switches whose current ID is generated. */
  function Generated(s: seq<Switch>): seq<Switch> {
    if s == [] then [] else (if s[0].isGenerated then [s[0]] else []) + Generated(s[1..])
  }

  lemma {:induction false} GeneratedExactly(s: seq<Switch>)
    ensures |GeneratedRows(s)| == |Generated(s)|
    ensures forall k :: 0 <= k < |Generated(s)| ==> GeneratedRows(s)[k] == Generated(s)[k].row
    ensures forall y :: y in Generated(s) <==> y in s && y.isGenerated
  {
    if s != [] {
      GeneratedExactly(s[1..]);
      assert s == [s[0]] + s[1..];
    }
  }

  lemma {:induction false} GeneratedAscends(s: seq<Switch>)
    requires Ascends(s)
    ensures Ascends(Generated(s))
  {
    if s != [] {
      var rest := s[1..];
      forall j, k | 0 <= j < k < |rest|
        ensures SortsBefore(rest[j], rest[k])
      {
        assert rest[j] == s[j + 1] && rest[k] == s[k + 1];
      }
      GeneratedAscends(rest);
      GeneratedExactly(rest);
      forall k | 0 <= k < |Generated(rest)|
        ensures SortsBefore(s[0], Generated(rest)[k])
      {
        assert Generated(rest)[k] in rest;
        var m :| 0 <= m < |rest| && rest[m] == Generated(rest)[k];
        assert rest[m] == s[m + 1];
      }
    }
  }

  /** The keys of the sort compared: at the plain name or not, the room key, the unique ID. */
  predicate ComesBefore(x: Switch, y: Switch) {
    var xNamed, yNamed := x.row.entityId == x.exact, y.row.entityId == y.exact;
    if xNamed != yNamed then xNamed
    else if x.roomKey != y.roomKey then IsLess(x.roomKey, y.roomKey)
    else IsLess(x.row.uniqueId, y.row.uniqueId)
  }

  lemma SortsMeans(x: Switch, y: Switch)
    ensures SortsBefore(x, y) <==> ComesBefore(x, y)
  {
    BeforeIsLess(x.roomKey, y.roomKey);
    BeforeIsLess(x.row.uniqueId, y.row.uniqueId);
    BeforeIsOrder(x.roomKey, y.roomKey, x.roomKey);
  }

  /** The group of a name is the generated rows of that name, in ascending order of their keys. */
  lemma GroupExactly(registry: Registry, switches: seq<Switch>, exact: string) returns (group: seq<Switch>)
    requires AreRows(registry, switches)
    ensures forall y :: y in group <==> y in switches && y.exact == exact && y.isGenerated
    ensures forall j, k :: 0 <= j < k < |group| ==> ComesBefore(group[j], group[k])
    ensures |GroupOf(switches, exact)| == |group|
    ensures forall k :: 0 <= k < |group| ==> GroupOf(switches, exact)[k] == group[k].row
  {
    var s := Sorted(OfName(switches, exact));
    OfNameMembers(switches, exact);
    OfNameApart(switches, exact);
    SortedMembers(OfName(switches, exact));
    SortedAscends(OfName(switches, exact));
    GeneratedExactly(s);
    GeneratedAscends(s);
    group := Generated(s);
    forall j, k | 0 <= j < k < |group|
      ensures ComesBefore(group[j], group[k])
    {
      SortsMeans(group[j], group[k]);
    }
  }
}

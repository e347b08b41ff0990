/** The mismatches already audited: each is recorded when it is first seen, and
    again only after it was cleared. They are kept as strings, an instance's
    cleared by prefix. */
module AsgSightings {

  /** A mismatch: the instance, what kind, and what was observed. */
  datatype Mismatch = Mismatch(id: string, kind: string, observed: string)

  const NUL: string := ['\0']

  const KINDS: set<string> := {"hostkey", "console", "cert:rdp", "cert:winrm"}

  function Key(m: Mismatch): string { m.id + NUL + m.kind + NUL + m.observed }

  predicate HasPrefix(s: string, prefix: string) { |prefix| <= |s| && s[..|prefix|] == prefix }

  /** Cloud ids hold no NUL, and only these kinds are recorded. */
  predicate Proper(m: Mismatch) { '\0' !in m.id && m.kind in KINDS }

  /** What clearing a kind of an instance takes away; the empty kind stands for all. */
  predicate Clears(id: string, kind: string, m: Mismatch) { m.id == id && (kind == "" || m.kind == kind) }

  // ---- the strings say which mismatch they stand for

  /** Where one of two joined strings has its NUL, the other has a character of its first part. */
  lemma NulInside(a: string, x: string, b: string)
    requires |a| < |b| && (HasPrefix(a + NUL + x, b) || HasPrefix(b, a + NUL))
    ensures b[|a|] == '\0'
  {
    if HasPrefix(a + NUL + x, b) {
      assert (a + NUL + x)[..|b|][|a|] == '\0';
    } else {
      assert b[..|a| + 1][|a|] == (a + NUL)[|a|];
    }
  }

  lemma FirstNul(a: string, x: string, b: string, y: string)
    requires '\0' !in a && '\0' !in b
    requires HasPrefix(a + NUL + x, b + NUL + y)
    ensures a == b && HasPrefix(x, y)
  {
    var s, t := a + NUL + x, b + NUL + y;
    assert s[..|b|] == t[..|b|] == b;
    if |a| < |b| {
      NulInside(a, x, b);
    } else if |b| < |a| {
      assert s[..|b| + 1] == t[..|b| + 1] == b + NUL;
      assert a[..|b| + 1] == s[..|b| + 1];
      NulInside(b, y, a);
    }
    assert |a| == |b|;
    assert s[..|a|] == a;
    assert s[|a| + 1..] == x && t[|b| + 1..] == y;
    assert x[..|y|] == s[|a| + 1..|t|] == t[|b| + 1..];
  }

  lemma KindsApart(k: string, l: string)
    requires k in KINDS && l in KINDS && HasPrefix(k, l)
    ensures k == l
  {
    assert k[5] == k[..|l|][5] == l[5];
  }

  lemma NoNulInKinds(k: string)
    requires k in KINDS
    ensures '\0' !in k && k != ""
  {
  }

  /** Clearing by prefix takes away exactly the mismatches of that instance and kind. */
  lemma PrefixClears(id: string, kind: string, m: Mismatch)
    requires '\0' !in id && (kind == "" || kind in KINDS) && Proper(m)
    ensures HasPrefix(Key(m), id + NUL + kind) <==> Clears(id, kind, m)
  {
    var rest := m.kind + NUL + m.observed;
    assert Key(m) == m.id + NUL + rest;
    NoNulInKinds(m.kind);
    if HasPrefix(Key(m), id + NUL + kind) {
      FirstNul(m.id, rest, id, kind);
      if kind != "" {
        NoNulInKinds(kind);
        KindPrefix(m.kind, m.observed, kind);
      }
    }
    if Clears(id, kind, m) {
      assert Key(m)[..|id + NUL + kind|] == id + NUL + kind;
    }
  }

  lemma KindPrefix(k: string, observed: string, l: string)
    requires k in KINDS && l in KINDS && HasPrefix(k + NUL + observed, l)
    ensures k == l
  {
    assert |l| <= |k| by {
      if |l| > |k| {
        NulInside(k, observed, l);
        NoNulInKinds(l);
        assert false;
      }
    }
    assert k[..|l|] == (k + NUL + observed)[..|l|];
    KindsApart(k, l);
  }

  lemma KeysDistinct(m: Mismatch, n: Mismatch)
    requires Proper(m) && Proper(n) && Key(m) == Key(n)
    ensures m == n
  {
    PrefixClears(n.id, n.kind, m);
    assert HasPrefix(Key(n), n.id + NUL + n.kind) by { PrefixClears(n.id, n.kind, n); }
    assert Key(m)[|m.id| + |m.kind| + 2..] == m.observed;
    assert Key(n)[|n.id| + |n.kind| + 2..] == n.observed;
  }

  class Sightings {
    var reported: set<string>
    ghost var seen: set<Mismatch>

    ghost predicate Valid()
      reads this
    {
      (forall m | m in seen :: Proper(m)) && reported == set m | m in seen :: Key(m)
    }

    constructor ()
      ensures Valid() && seen == {}
    {
      reported, seen := {}, {};
    }

    /** Whether this mismatch is new; it is remembered. */
    method FirstSighting(m: Mismatch) returns (first: bool)
      requires Valid() && Proper(m)
      modifies this
      ensures Valid() && seen == old(seen) + {m} && first == (m !in old(seen))
    {
      var key := m.id + NUL + m.kind + NUL + m.observed;
      forall n | n in seen && Key(n) == key ensures n == m { KeysDistinct(n, m); }
      first := key !in reported;
      reported := reported + {key};
      seen := seen + {m};
    }

    /** Forgets the mismatches of a kind on an instance, all kinds when it is empty. */
    method Cleared(id: string, kind: string)
      requires Valid() && '\0' !in id && (kind == "" || kind in KINDS)
      modifies this
      ensures Valid() && seen == set m | m in old(seen) && !Clears(id, kind, m)
    {
      var prefix := id + NUL + kind;
      forall m | m in seen ensures HasPrefix(Key(m), prefix) <==> Clears(id, kind, m) { PrefixClears(id, kind, m); }
      var rest := reported;
      while rest != {}
        invariant rest <= old(reported) && seen == old(seen)
        invariant reported == set k | k in old(reported) && (k in rest || !HasPrefix(k, prefix))
        decreases |rest|
      {
        var k :| k in rest;
        if HasPrefix(k, prefix) {
          reported := reported - {k};
        }
        rest := rest - {k};
      }
      seen := set m | m in seen && !Clears(id, kind, m);
    }
  }

  // ---- runs

  datatype Step = See(m: Mismatch) | Clear(id: string, kind: string)

  function Next(seen: set<Mismatch>, step: Step): set<Mismatch> {
    match step
    case See(m) => seen + {m}
    case Clear(id, kind) => set m | m in seen && !Clears(id, kind, m)
  }

  function After(steps: seq<Step>): set<Mismatch> {
    if steps == [] then {} else Next(After(steps[..|steps| - 1]), steps[|steps| - 1])
  }

  /** The mismatch was seen at step i and nothing has cleared it since. */
  ghost predicate StandsSince(steps: seq<Step>, m: Mismatch, i: nat) {
    && i < |steps| && steps[i] == See(m)
    && forall j: nat | i < j < |steps| && steps[j].Clear? :: !Clears(steps[j].id, steps[j].kind, m)
  }

  /** Over any run, a sighting is new exactly when every earlier one of the same
      mismatch has been cleared since. */
  lemma {:induction false} RecordedOnceUntilCleared(steps: seq<Step>, m: Mismatch)
    ensures m in After(steps) <==> exists i: nat :: StandsSince(steps, m, i)
  {
    if steps != [] {
      var n := |steps| - 1;
      var front := steps[..n];
      RecordedOnceUntilCleared(front, m);
      if m in After(steps) {
        if steps[n] == See(m) {
          assert StandsSince(steps, m, n);
        } else {
          var i: nat :| StandsSince(front, m, i);
          assert StandsSince(steps, m, i) by {
            forall j: nat | i < j < |steps| && steps[j].Clear? ensures !Clears(steps[j].id, steps[j].kind, m) {
              if j < n { assert front[j] == steps[j]; }
            }
          }
        }
      }
      if i: nat :| StandsSince(steps, m, i) && i < n {
        assert StandsSince(front, m, i);
      }
    }
  }
}

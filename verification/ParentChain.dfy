/**
  Climbing parent links.  A link map may contain cycles and links to spans that are missing;
  a chain is anchored when it ends at a root (no parent) or an orphan (a missing parent).
 */
module ParentChain {
  import opened Collections

  predicate IsRoot(par: map<string, string>, id: string)
    requires id in par
  {
    par[id] == ""
  }

  predicate IsOrphan(par: map<string, string>, id: string)
    requires id in par
  {
    par[id] != "" && par[id] !in par
  }

  predicate IsSeed(par: map<string, string>, id: string)
    requires id in par
  {
    IsRoot(par, id) || IsOrphan(par, id)
  }

  /** From id it takes exactly n links to the seed. */
  predicate Climbs(par: map<string, string>, id: string, n: nat, seed: string)
    decreases n
  {
    && id in par
    && if n == 0 then IsSeed(par, id) && id == seed else !IsSeed(par, id) && Climbs(par, par[id], n - 1, seed)
  }

  ghost predicate Anchored(par: map<string, string>, id: string) {
    exists n: nat, seed :: Climbs(par, id, n, seed)
  }

  /** k links can be followed from id without meeting a seed first. */
  predicate StillClimbing(par: map<string, string>, id: string, k: nat)
    decreases k
  {
    id in par && (k == 0 || (!IsSeed(par, id) && StillClimbing(par, par[id], k - 1)))
  }

  lemma {:induction false} ClimbIsUnique(par: map<string, string>, id: string, n: nat, s: string, n': nat, s': string)
    requires Climbs(par, id, n, s) && Climbs(par, id, n', s')
    ensures n == n' && s == s'
    decreases n
  {
    if n > 0 && n' > 0 {
      ClimbIsUnique(par, par[id], n - 1, s, n' - 1, s');
    }
  }

  /** A climb ends at a seed, which climbs to itself in no steps. */
  lemma {:induction false} ClimbEndsAtSeed(par: map<string, string>, id: string, n: nat, seed: string)
    requires Climbs(par, id, n, seed)
    ensures seed in par && IsSeed(par, seed)
    decreases n
  {
    if n > 0 {
      ClimbEndsAtSeed(par, par[id], n - 1, seed);
    }
  }

  predicate OnClimb(par: map<string, string>, s: string, n: nat, seed: string, k: nat) {
    k <= n && Climbs(par, s, k, seed)
  }

  lemma SeedIsAnchored(par: map<string, string>, id: string)
    requires id in par && IsSeed(par, id)
    ensures Anchored(par, id)
  {
    assert Climbs(par, id, 0, id);
  }

  /** The spans met on a climb are all different. */
  lemma {:induction false} ClimbVisits(par: map<string, string>, id: string, n: nat, seed: string) returns (met: set<string>)
    requires Climbs(par, id, n, seed)
    ensures met <= par.Keys && |met| == n + 1
    ensures forall s :: s in met ==> exists k: nat :: OnClimb(par, s, n, seed, k)
    decreases n
  {
    if n == 0 {
      met := {id};
      assert OnClimb(par, id, n, seed, n);
    } else {
      var above := ClimbVisits(par, par[id], n - 1, seed);
      if id in above {
        var k: nat :| OnClimb(par, id, n - 1, seed, k);
        ClimbIsUnique(par, id, n, seed, k, seed);
      }
      met := above + {id};
      forall s | s in met
        ensures exists k: nat :: OnClimb(par, s, n, seed, k)
      {
        if s in above {
          var k: nat :| OnClimb(par, s, n - 1, seed, k);
          assert OnClimb(par, s, n, seed, k);
        } else {
          assert OnClimb(par, s, n, seed, n);
        }
      }
    }
  }

  lemma ClimbIsShort(par: map<string, string>, id: string, n: nat, seed: string)
    requires Climbs(par, id, n, seed)
    ensures n < |par|
  {
    var met := ClimbVisits(par, id, n, seed);
    SubsetIsSmaller(met, par.Keys);
    assert |par| == |par.Keys|;
  }

  lemma {:induction false} ClimbStops(par: map<string, string>, id: string, n: nat, seed: string, k: nat)
    requires Climbs(par, id, n, seed)
    ensures StillClimbing(par, id, k) <==> k <= n
    decreases n
  {
    if n > 0 && k > 0 {
      ClimbStops(par, par[id], n - 1, seed, k - 1);
    }
  }

  lemma {:induction false} UnanchoredNeverStops(par: map<string, string>, id: string, k: nat)
    requires id in par && !Anchored(par, id)
    ensures StillClimbing(par, id, k)
    decreases k
  {
    if k > 0 {
      if IsSeed(par, id) {
        SeedIsAnchored(par, id);
      }
      if n: nat, seed :| Climbs(par, par[id], n, seed) {
        assert Climbs(par, id, n + 1, seed);
      }
      UnanchoredNeverStops(par, par[id], k - 1);
    }
  }

  /** A chain is lost in a cycle exactly when it is still going after as many links as there are spans. */
  lemma UnanchoredIffStillClimbing(par: map<string, string>, id: string)
    requires id in par
    ensures !Anchored(par, id) <==> StillClimbing(par, id, |par|)
  {
    if n: nat, seed :| Climbs(par, id, n, seed) {
      ClimbIsShort(par, id, n, seed);
      ClimbStops(par, id, n, seed, |par|);
    } else {
      UnanchoredNeverStops(par, id, |par|);
    }
  }

  // ----- Depth below a seed -----

  ghost predicate HasHeight(par: map<string, string>, seed: string, n: nat) {
    exists id :: Climbs(par, id, n, seed)
  }

  ghost function HeightUpTo(par: map<string, string>, seed: string, bound: nat): nat {
    if bound == 0 || HasHeight(par, seed, bound) then bound else HeightUpTo(par, seed, bound - 1)
  }

  /** Spans on the longest chain ending at the seed. */
  ghost function Depth(par: map<string, string>, seed: string): nat {
    1 + HeightUpTo(par, seed, |par|)
  }

  /** The two facts that pin Depth down. */
  lemma DepthIs(par: map<string, string>, seed: string, d: nat)
    requires seed in par && IsSeed(par, seed)
    requires d > 0 && HasHeight(par, seed, d - 1)
    requires forall id, n: nat :: Climbs(par, id, n, seed) ==> n < d
    ensures d == Depth(par, seed)
  {
    var id :| Climbs(par, id, d - 1, seed);
    ClimbIsShort(par, id, d - 1, seed);
    HeightFrom(par, seed, d - 1, |par|);
  }

  lemma {:induction false} HeightIs(par: map<string, string>, seed: string, bound: nat)
    ensures HeightUpTo(par, seed, bound) == 0 || HasHeight(par, seed, HeightUpTo(par, seed, bound))
    ensures forall n: nat :: n <= bound && HasHeight(par, seed, n) ==> n <= HeightUpTo(par, seed, bound)
  {
    if bound == 0 || HasHeight(par, seed, bound) {
    } else {
      HeightIs(par, seed, bound - 1);
    }
  }

  /** And it has them. */
  lemma DepthIsReached(par: map<string, string>, seed: string)
    requires seed in par && IsSeed(par, seed)
    ensures Depth(par, seed) > 0 && HasHeight(par, seed, Depth(par, seed) - 1)
    ensures forall id, n: nat :: Climbs(par, id, n, seed) ==> n < Depth(par, seed)
  {
    HeightIs(par, seed, |par|);
    assert Climbs(par, seed, 0, seed);
    assert HasHeight(par, seed, 0);
    forall id, n: nat | Climbs(par, id, n, seed)
      ensures n < Depth(par, seed)
    {
      ClimbIsShort(par, id, n, seed);
      assert HasHeight(par, seed, n);
    }
  }

  lemma {:induction false} HeightFrom(par: map<string, string>, seed: string, h: nat, bound: nat)
    requires HasHeight(par, seed, h) && h <= bound
    requires forall id, n: nat :: Climbs(par, id, n, seed) ==> n <= h
    ensures HeightUpTo(par, seed, bound) == h
  {
    if bound > h {
      HeightFrom(par, seed, h, bound - 1);
    }
  }
}

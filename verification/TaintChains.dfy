/** scripts/check-no-secret-argv.py, taint: exactly which variables three passes over the assignments reach. */
module TaintChains {
  import opened SecretArgv

  /** A secret's way: from a source line on, each line expands the variable the one before it assigns. */
  ghost predicate Chain(assigns: seq<Assign>, c: seq<nat>) {
    && c != [] && (forall k :: 0 <= k < |c| ==> c[k] < |assigns| && !assigns[c[k]].harmless)
    && assigns[c[0]].fromSource
    && forall k :: 0 < k < |c| ==> assigns[c[k - 1]].name in assigns[c[k]].vars
  }

  function Last(c: seq<nat>): nat
    requires c != []
  {
    c[|c| - 1]
  }

  /** The steps of a way that go to the same line or back up. */
  function Turns(c: seq<nat>): nat {
    if |c| < 2 then 0 else Turns(c[..|c| - 1]) + (if Last(c) <= c[|c| - 2] then 1 else 0)
  }

  ghost predicate Names(assigns: seq<Assign>, c: seq<nat>, n: string) {
    Chain(assigns, c) && assigns[Last(c)].name == n
  }

  /** The way is done within `p` passes and the first `j` lines of the next. */
  predicate Within(c: seq<nat>, p: nat, j: nat)
    requires c != []
  {
    Turns(c) < p || (Turns(c) == p && Last(c) < j)
  }

  ghost predicate ReachedWithin(assigns: seq<Assign>, n: string, p: nat, j: nat) {
    exists c :: Names(assigns, c, n) && Within(c, p, j)
  }

  /** The set after the first `j` lines of a pass. */
  function Upto(assigns: seq<Assign>, out: set<string>, j: nat): set<string>
    requires j <= |assigns|
  {
    if j == 0 then out else Then(assigns[j - 1], Upto(assigns, out, j - 1))
  }

  lemma {:induction false} UptoRest(assigns: seq<Assign>, out: set<string>, j: nat)
    requires j <= |assigns|
    ensures Pass(assigns[j..], Upto(assigns, out, j)) == Pass(assigns, out)
  {
    if j == 0 {
      assert assigns[0..] == assigns;
    } else {
      UptoRest(assigns, out, j - 1);
      assert assigns[j - 1..][0] == assigns[j - 1] && assigns[j - 1..][1..] == assigns[j..];
    }
  }

  lemma PassIsUpto(assigns: seq<Assign>, out: set<string>)
    ensures Pass(assigns, out) == Upto(assigns, out, |assigns|)
  {
    UptoRest(assigns, out, |assigns|);
    assert assigns[|assigns|..] == [];
  }

  lemma Extended(assigns: seq<Assign>, c: seq<nat>, j: nat)
    requires Chain(assigns, c) && j < |assigns| && !assigns[j].harmless && assigns[Last(c)].name in assigns[j].vars
    ensures Names(assigns, c + [j], assigns[j].name) && Last(c + [j]) == j
    ensures Turns(c + [j]) == Turns(c) + (if j <= Last(c) then 1 else 0)
  {
    assert (c + [j])[..|c|] == c;
  }

  lemma Shortened(assigns: seq<Assign>, c: seq<nat>)
    requires Chain(assigns, c) && |c| > 1
    ensures var front := c[..|c| - 1];
            && Chain(assigns, front) && assigns[Last(front)].name in assigns[Last(c)].vars
            && Turns(c) == Turns(front) + (if Last(c) <= Last(front) then 1 else 0)
  {
    var front := c[..|c| - 1];
    assert forall k :: 0 <= k < |front| ==> front[k] == c[k];
  }

  /** The set holds the names reached by then. */
  ghost predicate HoldsReached(assigns: seq<Assign>, s: set<string>, p: nat, j: nat) {
    forall n :: n in s <==> ReachedWithin(assigns, n, p, j)
  }

  lemma {:induction false} UptoReaches(assigns: seq<Assign>, out: set<string>, p: nat, j: nat)
    requires j <= |assigns| && HoldsReached(assigns, out, p, 0)
    ensures HoldsReached(assigns, Upto(assigns, out, j), p, j)
  {
    if j > 0 {
      var before := Upto(assigns, out, j - 1);
      UptoReaches(assigns, out, p, j - 1);
      forall n: string
        ensures n in Then(assigns[j - 1], before) <==> ReachedWithin(assigns, n, p, j)
      {
        if n in Then(assigns[j - 1], before) {
          LineGives(assigns, before, p, j - 1, n);
        }
        if ReachedWithin(assigns, n, p, j) {
          var c :| Names(assigns, c, n) && Within(c, p, j);
          LineTakes(assigns, before, p, j - 1, c);
        }
      }
    }
  }

  lemma LineGives(assigns: seq<Assign>, before: set<string>, p: nat, j: nat, n: string)
    requires j < |assigns| && HoldsReached(assigns, before, p, j)
    requires n in Then(assigns[j], before)
    ensures ReachedWithin(assigns, n, p, j + 1)
  {
    var a := assigns[j];
    if n in before {
      var c :| Names(assigns, c, n) && Within(c, p, j);
      assert Within(c, p, j + 1);
    } else if a.fromSource {
      assert Names(assigns, [j], n) && Within([j], p, j + 1);
    } else {
      var v :| v in a.vars && v in before;
      var c :| Names(assigns, c, v) && Within(c, p, j);
      Extended(assigns, c, j);
      assert Within(c + [j], p, j + 1);
    }
  }

  lemma LineTakes(assigns: seq<Assign>, before: set<string>, p: nat, j: nat, c: seq<nat>)
    requires j < |assigns| && HoldsReached(assigns, before, p, j)
    requires Chain(assigns, c) && Within(c, p, j + 1)
    ensures assigns[Last(c)].name in Then(assigns[j], before)
  {
    var n := assigns[Last(c)].name;
    assert Names(assigns, c, n);
    if !Within(c, p, j) && |c| > 1 {
      Shortened(assigns, c);
      var front := c[..|c| - 1];
      assert Names(assigns, front, assigns[Last(front)].name) && Within(front, p, j);
    }
  }

  lemma PassReaches(assigns: seq<Assign>, out: set<string>, p: nat)
    requires HoldsReached(assigns, out, p, 0)
    ensures HoldsReached(assigns, Pass(assigns, out), p + 1, 0)
  {
    PassIsUpto(assigns, out);
    UptoReaches(assigns, out, p, |assigns|);
    forall n: string
      ensures n in Pass(assigns, out) <==> ReachedWithin(assigns, n, p + 1, 0)
    {
      forall c | Names(assigns, c, n)
        ensures Within(c, p, |assigns|) <==> Within(c, p + 1, 0)
      {
      }
    }
  }

  /** Three passes name exactly the variables a secret reaches on a way with at most two steps up. */
  lemma TaintedIsTwoTurns(assigns: seq<Assign>, n: string)
    ensures n in Tainted(assigns) <==> exists c :: Names(assigns, c, n) && Turns(c) <= 2
  {
    assert HoldsReached(assigns, {}, 0, 0);
    PassReaches(assigns, {}, 0);
    PassReaches(assigns, Pass(assigns, {}), 1);
    PassReaches(assigns, Pass(assigns, Pass(assigns, {})), 2);
    assert n in Tainted(assigns) <==> ReachedWithin(assigns, n, 3, 0);
    forall c | Names(assigns, c, n)
      ensures Within(c, 3, 0) <==> Turns(c) <= 2
    {
    }
  }

  lemma {:induction false} ClosedHoldsWays(assigns: seq<Assign>, s: set<string>, c: seq<nat>)
    requires Closed(assigns, s) && Chain(assigns, c)
    ensures assigns[Last(c)].name in s
    decreases |c|
  {
    assert assigns[Last(c)] in assigns;
    if |c| > 1 {
      Shortened(assigns, c);
      ClosedHoldsWays(assigns, s, c[..|c| - 1]);
    }
  }

  /** So no reached variable is lost exactly when each has some way with at most two steps up. */
  lemma NothingIsLostIff(assigns: seq<Assign>)
    ensures Closed(assigns, Tainted(assigns)) <==>
              forall c :: Chain(assigns, c) ==> exists d :: Names(assigns, d, assigns[Last(c)].name) && Turns(d) <= 2
  {
    if Closed(assigns, Tainted(assigns)) {
      forall c | Chain(assigns, c)
        ensures exists d :: Names(assigns, d, assigns[Last(c)].name) && Turns(d) <= 2
      {
        ClosedHoldsWays(assigns, Tainted(assigns), c);
        TaintedIsTwoTurns(assigns, assigns[Last(c)].name);
      }
    } else {
      var a :| a in assigns && Taints(a, Tainted(assigns)) && a.name !in Tainted(assigns);
      var j :| 0 <= j < |assigns| && assigns[j] == a;
      var c := WayTo(assigns, j);
      TaintedIsTwoTurns(assigns, a.name);
    }
  }

  lemma WayTo(assigns: seq<Assign>, j: nat) returns (c: seq<nat>)
    requires j < |assigns| && Taints(assigns[j], Tainted(assigns))
    ensures Names(assigns, c, assigns[j].name)
  {
    if assigns[j].fromSource {
      c := [j];
    } else {
      var v :| v in assigns[j].vars && v in Tainted(assigns);
      TaintedIsTwoTurns(assigns, v);
      var d :| Names(assigns, d, v) && Turns(d) <= 2;
      Extended(assigns, d, j);
      c := d + [j];
    }
  }
}

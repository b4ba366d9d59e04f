/** scripts/check-owner-credential-readers.py, rendered_takeovers: every render, binding and subject in turn. */
module RenderedTakeovers {
  import opened Prelude
  import opened Rbac
  import opened Takeover
  import opened TakeoverLaws
  import OwnerReaders

  type Finding = (Account, Power, Target)

  /** What a binding's rules give a holder: `powers`, at depth 0. */
  ghost predicate Gives(docs: seq<Doc>, b: Binding, holder: Option<Account>, scene: Scene, owner: set<string>,
                        p: Power, t: Target)
  {
    || HasPower(AuthorityOf(b.rules, b.scope), holder, scene, p, t)
    || (p == Bind && HasBind(b.rules, b.scope, holder, scene, docs, owner, t))
  }

  ghost predicate GivesAt(docs: seq<Doc>, k: nat, who: Account, scene: Scene, owner: set<string>, p: Power, t: Target)
    requires k < |docs|
  {
    var b := BindingAt(docs, k, NS);
    b.Some? && ServiceAccount(who) in b.value.subjects && Gives(docs, b.value, Some(who), scene, owner, p, t)
  }

  /** Binding `k` gives a takeover to a group that holds every ServiceAccount. */
  ghost predicate GivesEveryone(docs: seq<Doc>, k: nat, scene: Scene, owner: set<string>)
    requires k < |docs|
  {
    var b := BindingAt(docs, k, NS);
    && b.Some?
    && HoldsEveryone(b.value.subjects)
    && exists p, t :: Gives(docs, b.value, None, scene, owner, p, t)
  }

  predicate HoldsEveryone(subjects: seq<Subject>) {
    exists s | s in subjects :: s.Group? && OwnerReaders.HoldsEveryAccount(s.group)
  }

  method OverSubjects(docs: seq<Doc>, b: Binding, roles: map<RoleKey, seq<Rule>>, scene: Scene, owner: set<string>)
    returns (found: set<Finding>, open: bool)
    requires forall key: RoleKey :: OwnerReaders.TableAgrees(roles, docs, |docs|, key, NS)
    ensures forall who, p, t :: (who, p, t) in found <==>
        ServiceAccount(who) in b.subjects && Gives(docs, b, Some(who), scene, owner, p, t)
    ensures open <==> HoldsEveryone(b.subjects) && exists p, t :: Gives(docs, b, None, scene, owner, p, t)
  {
    found, open := {}, false;
    for i := 0 to |b.subjects|
      invariant forall who, p, t :: (who, p, t) in found <==>
          ServiceAccount(who) in b.subjects[..i] && Gives(docs, b, Some(who), scene, owner, p, t)
      invariant open <==> HoldsEveryone(b.subjects[..i]) && exists p, t :: Gives(docs, b, None, scene, owner, p, t)
    {
      var s := b.subjects[i];
      assert b.subjects[..i + 1] == b.subjects[..i] + [s];
      if s.Group? {
        if OwnerReaders.HoldsEveryAccount(s.group) {
          var any := AnyPower(docs, b, roles, scene, owner);
          open := open || any;
        }
      } else if s.ServiceAccount? {
        var got := Powers(b.rules, b.scope, Some(s.account), scene, docs, roles, owner);
        var here := set r: Reach | r in got :: (s.account, r.0, r.1);
        assert forall p, t :: (s.account, p, t) in here <==> (p, t) in got by {
          forall p, t | (p, t) in got ensures (s.account, p, t) in here {
            assert (p, t).0 == p && (p, t).1 == t;
          }
        }
        found := found + here;
      }
    }
    assert b.subjects[..|b.subjects|] == b.subjects;
  }

  method AnyPower(docs: seq<Doc>, b: Binding, roles: map<RoleKey, seq<Rule>>, scene: Scene, owner: set<string>)
    returns (any: bool)
    requires forall key: RoleKey :: OwnerReaders.TableAgrees(roles, docs, |docs|, key, NS)
    ensures any <==> exists p, t :: Gives(docs, b, None, scene, owner, p, t)
  {
    var got := Powers(b.rules, b.scope, None, scene, docs, roles, owner);
    any := got != {};
    if any {
      var x :| x in got;
      assert x == (x.0, x.1);
      assert Gives(docs, b, None, scene, owner, x.0, x.1);
    } else {
      forall p, t
        ensures !Gives(docs, b, None, scene, owner, p, t)
      {
        assert (p, t) !in got;
      }
    }
  }

  method OverBinding(docs: seq<Doc>, k: nat, roles: map<RoleKey, seq<Rule>>, scene: Scene, owner: set<string>)
    returns (found: set<Finding>, open: bool)
    requires k < |docs|
    requires forall key: RoleKey :: OwnerReaders.TableAgrees(roles, docs, |docs|, key, NS)
    ensures forall who, p, t :: (who, p, t) in found <==> GivesAt(docs, k, who, scene, owner, p, t)
    ensures open <==> GivesEveryone(docs, k, scene, owner)
  {
    found, open := {}, false;
    var d := docs[k];
    if IsBinding(d) {
      var scope := ScopeOf(d, NS);
      var rules := OwnerReaders.ResolveIn(roles, d.ref, scope, docs, NS);
      if rules.Some? {
        found, open := OverSubjects(docs, Binding(scope, SubjectsOf(d, NS), rules.value), roles, scene, owner);
      }
    }
  }

  ghost predicate Given(docs: seq<Doc>, n: nat, who: Account, scene: Scene, owner: set<string>, p: Power, t: Target)
    requires n <= |docs|
  {
    exists k :: 0 <= k < n && GivesAt(docs, k, who, scene, owner, p, t)
  }

  ghost predicate Opened(docs: seq<Doc>, n: nat, scene: Scene, owner: set<string>)
    requires n <= |docs|
  {
    exists k :: 0 <= k < n && GivesEveryone(docs, k, scene, owner)
  }

  /** The takeovers of one render, and whether some binding gives one to every ServiceAccount. */
  method OverBindings(docs: seq<Doc>, scene: Scene, owner: set<string>) returns (found: set<Finding>, open: bool)
    ensures forall who, p, t :: (who, p, t) in found <==>
        Given(docs, |docs|, who, scene, owner, p, t)
    ensures open <==> Opened(docs, |docs|, scene, owner)
  {
    hide GivesAt, GivesEveryone;
    var roles := OwnerReaders.RoleRules(docs, NS);
    found, open := {}, false;
    for i := 0 to |docs|
      invariant forall who, p, t :: (who, p, t) in found <==>
          Given(docs, i, who, scene, owner, p, t)
      invariant open <==> Opened(docs, i, scene, owner)
    {
      var here, everyone := OverBinding(docs, i, roles, scene, owner);
      forall who, p, t
        ensures Given(docs, i + 1, who, scene, owner, p, t) <==>
          Given(docs, i, who, scene, owner, p, t) || (who, p, t) in here
      {
      }
      found, open := found + here, open || everyone;
    }
  }

  // -------------------------------------------------- against the authorizer

  /** Everything the API server authorizes the account for, groups included. */
  ghost function AccountAuthority(docs: seq<Doc>, who: Account): iset<Request> {
    iset req: Request | DocsAuthorize(docs, NS, who, req)
  }

  ghost function AuthorityAt(docs: seq<Doc>, k: nat, who: Account): iset<Request>
    requires k < |docs|
  {
    iset req: Request | DocAllows(docs, k, NS, who, req)
  }

  /** What the first `n` documents authorize. */
  ghost function AuthorityUpTo(docs: seq<Doc>, n: nat, who: Account): iset<Request>
    requires n <= |docs|
  {
    if n == 0 then iset{} else AuthorityUpTo(docs, n - 1, who) + AuthorityAt(docs, n - 1, who)
  }

  lemma {:induction false} AuthorityUpToMeans(docs: seq<Doc>, n: nat, who: Account, req: Request)
    requires n <= |docs|
    ensures req in AuthorityUpTo(docs, n, who) <==> exists k :: 0 <= k < n && DocAllows(docs, k, NS, who, req)
  {
    hide DocAllows;
    if n > 0 {
      AuthorityUpToMeans(docs, n - 1, who, req);
    }
  }

  ghost predicate PowerAt(docs: seq<Doc>, k: nat, who: Account, holder: Option<Account>, scene: Scene, p: Power, t: Target)
    requires k < |docs|
  {
    HasPower(AuthorityAt(docs, k, who), holder, scene, p, t)
  }

  lemma {:induction false} PowerUpToStep(docs: seq<Doc>, n: nat, who: Account, holder: Option<Account>, scene: Scene, p: Power, t: Target)
    requires n < |docs|
    ensures HasPower(AuthorityUpTo(docs, n + 1, who), holder, scene, p, t) <==>
        HasPower(AuthorityUpTo(docs, n, who), holder, scene, p, t) || PowerAt(docs, n, who, holder, scene, p, t)
  {
    PowerOfUnion(AuthorityUpTo(docs, n, who), AuthorityAt(docs, n, who), holder, scene, p, t);
  }

  lemma NothingGivesNothing(holder: Option<Account>, scene: Scene, p: Power, t: Target)
    ensures !HasPower(iset{}, holder, scene, p, t)
  {
  }

  /** Without an opened group, a binding's share of a ServiceAccount's power is what the guard reports for it. */
  lemma BindingShare(docs: seq<Doc>, k: nat, who: Account, scene: Scene, owner: set<string>, p: Power, t: Target)
    requires k < |docs| && p != Bind && !GivesEveryone(docs, k, scene, owner)
    ensures PowerAt(docs, k, who, Some(who), scene, p, t) <==> GivesAt(docs, k, who, scene, owner, p, t)
  {
    hide BindingAt, HasBind, RuleMatches, HasPower;
    var a := AuthorityAt(docs, k, who);
    var b := BindingAt(docs, k, NS);
    assert Names(ServiceAccount(who), who);
    if b.None? || !exists s :: s in b.value.subjects && Names(s, who) {
      assert a == iset{};
      NothingGivesNothing(Some(who), scene, p, t);
    } else {
      assert a == AuthorityOf(b.value.rules, b.value.scope);
      HolderLosesOnly(a, who, scene, p, t);
      if ServiceAccount(who) !in b.value.subjects {
        var s :| s in b.value.subjects && Names(s, who);
        assert HoldsEveryone(b.value.subjects);
        assert !Gives(docs, b.value, None, scene, owner, p, t);
      }
    }
  }

  /** Whose authority it is only ever takes a power away: its power over itself. */
  lemma HolderLosesOnly(a: iset<Request>, who: Account, scene: Scene, p: Power, t: Target)
    ensures HasPower(a, Some(who), scene, p, t) ==> HasPower(a, None, scene, p, t)
  {
  }

  lemma GivenStep(docs: seq<Doc>, n: nat, who: Account, scene: Scene, owner: set<string>, p: Power, t: Target)
    requires n < |docs|
    ensures Given(docs, n + 1, who, scene, owner, p, t) <==>
        Given(docs, n, who, scene, owner, p, t) || GivesAt(docs, n, who, scene, owner, p, t)
  {
  }

  lemma {:induction false} PowerUpToIsGiven(docs: seq<Doc>, n: nat, who: Account, scene: Scene, owner: set<string>,
                                            p: Power, t: Target)
    requires n <= |docs| && p != Bind && !Opened(docs, |docs|, scene, owner)
    ensures HasPower(AuthorityUpTo(docs, n, who), Some(who), scene, p, t) <==> Given(docs, n, who, scene, owner, p, t)
  {
    hide HasPower, PowerAt, GivesAt, GivesEveryone;
    if n == 0 {
      NothingGivesNothing(Some(who), scene, p, t);
    } else {
      PowerUpToIsGiven(docs, n - 1, who, scene, owner, p, t);
      PowerUpToStep(docs, n - 1, who, Some(who), scene, p, t);
      BindingShare(docs, n - 1, who, scene, owner, p, t);
      GivenStep(docs, n - 1, who, scene, owner, p, t);
    }
  }

  /** The report is exact: in renders where no all-account group is opened, a ServiceAccount is reported for exec,
      patch, create-pod, token or impersonate on a target exactly when all it is authorized for gives that power. */
  lemma ReportsAreAuthority(docs: seq<Doc>, who: Account, scene: Scene, owner: set<string>, p: Power, t: Target)
    requires p != Bind && !Opened(docs, |docs|, scene, owner)
    ensures Given(docs, |docs|, who, scene, owner, p, t) <==>
        HasPower(AccountAuthority(docs, who), Some(who), scene, p, t)
  {
    assert AccountAuthority(docs, who) == AuthorityUpTo(docs, |docs|, who) by {
      forall req: Request {
        AuthorityUpToMeans(docs, |docs|, who, req);
      }
    }
    PowerUpToIsGiven(docs, |docs|, who, scene, owner, p, t);
  }

  /** All the rules the account holds at least in this scope, from the first `n` documents. */
  ghost function Merged(docs: seq<Doc>, n: nat, who: Account, scope: Option<string>): (r: seq<Rule>)
    requires n <= |docs|
  {
    if n == 0 then [] else
      var b := BindingAt(docs, n - 1, NS);
      Merged(docs, n - 1, who, scope)
      + (if b.Some? && Covers(b.value.scope, scope) && (exists s :: s in b.value.subjects && Names(s, who))
         then b.value.rules else [])
  }

  lemma {:induction false} MergedHolds(docs: seq<Doc>, n: nat, who: Account, scope: Option<string>, r: Rule)
    requires n <= |docs|
    ensures r in Merged(docs, n, who, scope) <==>
        exists k :: 0 <= k < n && BindingAt(docs, k, NS).Some? && Covers(BindingAt(docs, k, NS).value.scope, scope)
                    && (exists s :: s in BindingAt(docs, k, NS).value.subjects && Names(s, who))
                    && r in BindingAt(docs, k, NS).value.rules
  {
    hide BindingAt;
    if n > 0 {
      MergedHolds(docs, n - 1, who, scope, r);
    }
  }

  /** The account is authorized for all that its merged rules grant. */
  lemma MergedIsAuthorized(docs: seq<Doc>, who: Account, scope: Option<string>)
    ensures AuthorityOf(Merged(docs, |docs|, who, scope), scope) <= AccountAuthority(docs, who)
  {
    hide BindingAt, RuleMatches;
    forall req | req in AuthorityOf(Merged(docs, |docs|, who, scope), scope)
      ensures DocsAuthorize(docs, NS, who, req)
    {
      var r :| r in Merged(docs, |docs|, who, scope) && RuleMatches(r, req);
      MergedHolds(docs, |docs|, who, scope, r);
      var k :| 0 <= k < |docs| && BindingAt(docs, k, NS).Some? && Covers(BindingAt(docs, k, NS).value.scope, scope)
               && (exists s :: s in BindingAt(docs, k, NS).value.subjects && Names(s, who))
               && r in BindingAt(docs, k, NS).value.rules;
      assert DocAllows(docs, k, NS, who, req);
    }
  }

  /** A bind finding is sound: the account's merged rules, in every namespace or in the charts' own, hold that bind. */
  lemma BindFindingIsHeld(docs: seq<Doc>, who: Account, scene: Scene, owner: set<string>, t: Target)
    requires Given(docs, |docs|, who, scene, owner, Bind, t)
    ensures exists scope :: Covers(scope, Some(NS)) &&
              HasBind(Merged(docs, |docs|, who, scope), scope, Some(who), scene, docs, owner, t)
  {
    hide GivesAt, HasBind;
    var k :| 0 <= k < |docs| && GivesAt(docs, k, who, scene, owner, Bind, t);
    var scope := GivenBind(docs, k, who, scene, owner, t);
    BindIsMerged(docs, k, who, scene, owner, t);
  }

  lemma GivenBind(docs: seq<Doc>, k: nat, who: Account, scene: Scene, owner: set<string>, t: Target)
    returns (scope: Option<string>)
    requires k < |docs| && GivesAt(docs, k, who, scene, owner, Bind, t)
    ensures var b := BindingAt(docs, k, NS);
            && b.Some? && ServiceAccount(who) in b.value.subjects && scope == b.value.scope && Covers(scope, Some(NS))
            && HasBind(b.value.rules, scope, Some(who), scene, docs, owner, t)
  {
    hide BindingAt, BindsKind, WritesBindings, Escalates, AuthorityOf;
    scope := BindingAt(docs, k, NS).value.scope;
  }

  lemma BindIsMerged(docs: seq<Doc>, k: nat, who: Account, scene: Scene, owner: set<string>, t: Target)
    requires k < |docs| && BindingAt(docs, k, NS).Some?
    requires ServiceAccount(who) in BindingAt(docs, k, NS).value.subjects
    ensures var b := BindingAt(docs, k, NS).value;
            HasBind(b.rules, b.scope, Some(who), scene, docs, owner, t) ==>
              HasBind(Merged(docs, |docs|, who, b.scope), b.scope, Some(who), scene, docs, owner, t)
  {
    hide BindingAt, HasBind;
    var b := BindingAt(docs, k, NS).value;
    assert Names(ServiceAccount(who), who);
    forall r | r in b.rules
      ensures r in Merged(docs, |docs|, who, b.scope)
    {
      MergedHolds(docs, |docs|, who, b.scope, r);
    }
    BindGrows(b.rules, Merged(docs, |docs|, who, b.scope), b.scope, b.scope, Some(who), scene, docs, owner, t);
  }

  /** rendered_takeovers over every render. Bind findings are sound; a bind that takes two bindings is not found. */
  method OverRenders(docsets: seq<seq<Doc>>, scene: Scene, owner: set<string>)
    returns (found: set<Finding>, open: bool)
    ensures !open ==> forall who, p, t | p != Bind :: (who, p, t) in found <==>
        exists docs :: docs in docsets && HasPower(AccountAuthority(docs, who), Some(who), scene, p, t)
    ensures forall who, p, t :: (who, p, t) in found <==>
        exists docs :: docs in docsets && Given(docs, |docs|, who, scene, owner, p, t)
    ensures open <==> exists docs :: docs in docsets && Opened(docs, |docs|, scene, owner)
  {
    hide Given, Opened, HasPower, AccountAuthority;
    found, open := {}, false;
    for i := 0 to |docsets|
      invariant forall who, p, t :: (who, p, t) in found <==>
          exists docs :: docs in docsets[..i] && Given(docs, |docs|, who, scene, owner, p, t)
      invariant open <==> exists docs :: docs in docsets[..i] && Opened(docs, |docs|, scene, owner)
    {
      var docs := docsets[i];
      assert forall x :: x in docsets[..i + 1] <==> x in docsets[..i] || x == docs;
      var here, everyone := OverBindings(docs, scene, owner);
      found, open := found + here, open || everyone;
    }
    assert docsets[..|docsets|] == docsets;
    if !open {
      forall docs, who, p, t | docs in docsets && p != Bind
        ensures Given(docs, |docs|, who, scene, owner, p, t) <==>
          HasPower(AccountAuthority(docs, who), Some(who), scene, p, t)
      {
        ReportsAreAuthority(docs, who, scene, owner, p, t);
      }
    }
  }
}

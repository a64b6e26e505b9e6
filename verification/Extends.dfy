/** Services that extend other services of the same file, resolved with a memo. */
module Extends {
  import opened Basics
  import opened Json

  type Service = map<string, Json>

  type Services = map<string, Json>

  /** The definition of a service, if there is one. */
  function Raw(services: Services, name: string): Option<Service> {
    if name in services && services[name].Obj? then Some(services[name].members) else None
  }

  /** The service that a service extends. */
  function BaseOf(services: Services, name: string): Option<string> {
    var raw :- Raw(services, name);
    GetStr(Index(Obj(raw), "extends"), "service")
  }

  /** One setting laid over the base's: dictionaries are joined, everything else replaces. */
  function OverlayOne(base: Service, key: string, value: Json): Json {
    if value.Obj? && key in base && base[key].Obj? then Obj(base[key].members + value.members) else value
  }

  function Overlay(base: Service, own: Service): Service {
    map key | key in base.Keys + (own.Keys - {"extends"}) ::
      if key in own && key != "extends" then OverlayOne(base, key, own[key]) else base[key]
  }

  /** Resolution without a memo: the base first, then the service's own settings over it. */
  function Plain(services: Services, name: string, stack: set<string>): Result<Service>
    decreases services.Keys - stack
  {
    if name in stack then Failure
    else
      match Raw(services, name)
      case None => Success(map[])
      case Some(own) =>
        match BaseOf(services, name)
        case None => Success(Overlay(map[], own))
        case Some(base) =>
          var inherited :- Plain(services, base, stack + {name});
          Success(Overlay(inherited, own))
  }

  // ----- chains and cycles -----

  /** The `n`-th service up the chain of extensions. */
  function Ancestor(services: Services, name: string, n: nat): Option<string>
    decreases n
  {
    if n == 0 then Some(name)
    else
      var base :- BaseOf(services, name);
      Ancestor(services, base, n - 1)
  }

  ghost predicate LeadsTo(services: Services, name: string, other: string) {
    exists n: nat :: n > 0 && Ancestor(services, name, n) == Some(other)
  }

  ghost predicate OnCycle(services: Services, name: string) {
    LeadsTo(services, name, name)
  }

  ghost predicate ReachesCycle(services: Services, name: string) {
    exists n: nat :: Ancestor(services, name, n).Some? && OnCycle(services, Ancestor(services, name, n).value)
  }

  lemma {:induction false} AncestorStep(services: Services, name: string, n: nat)
    requires Ancestor(services, name, n).Some?
    ensures Ancestor(services, name, n + 1) == BaseOf(services, Ancestor(services, name, n).value)
    decreases n
  {
    if n > 0 {
      AncestorStep(services, BaseOf(services, name).value, n - 1);
    }
  }

  /** With its base, a service leads to whatever the base is or leads to. */
  lemma LeadsThrough(services: Services, name: string, base: string, other: string)
    requires BaseOf(services, name) == Some(base)
    ensures LeadsTo(services, name, other) <==> base == other || LeadsTo(services, base, other)
  {
    if LeadsTo(services, name, other) {
      var n: nat :| n > 0 && Ancestor(services, name, n) == Some(other);
      assert Ancestor(services, base, n - 1) == Some(other);
    }
    if base == other {
      assert Ancestor(services, name, 1) == Some(other) by {
        assert Ancestor(services, base, 0) == Some(base);
      }
    }
    if LeadsTo(services, base, other) {
      var n: nat :| n > 0 && Ancestor(services, base, n) == Some(other);
      assert Ancestor(services, name, n + 1) == Some(other);
    }
  }

  lemma LeadsToBase(services: Services, from: string, name: string, base: string)
    requires LeadsTo(services, from, name) && BaseOf(services, name) == Some(base)
    ensures LeadsTo(services, from, base)
  {
    var n: nat :| n > 0 && Ancestor(services, from, n) == Some(name);
    AncestorStep(services, from, n);
  }

  lemma ReachesThrough(services: Services, name: string, base: string)
    requires BaseOf(services, name) == Some(base)
    ensures ReachesCycle(services, name) <==> OnCycle(services, name) || ReachesCycle(services, base)
  {
    hide OnCycle;
    if ReachesCycle(services, name) {
      var n: nat :| Ancestor(services, name, n).Some? && OnCycle(services, Ancestor(services, name, n).value);
      if n > 0 {
        assert Ancestor(services, base, n - 1) == Ancestor(services, name, n);
      }
    }
    if OnCycle(services, name) {
      assert Ancestor(services, name, 0) == Some(name);
    }
    if ReachesCycle(services, base) {
      var n: nat :| Ancestor(services, base, n).Some? && OnCycle(services, Ancestor(services, base, n).value);
      assert Ancestor(services, name, n + 1) == Ancestor(services, base, n);
    }
  }

  lemma NoBaseNoCycle(services: Services, name: string)
    requires BaseOf(services, name).None?
    ensures !ReachesCycle(services, name) && forall other :: !LeadsTo(services, name, other)
  {
    assert forall n: nat | n > 0 :: Ancestor(services, name, n).None?;
  }

  // ----- plain resolution -----

  /** A smaller stack stops nothing that a larger one lets through. */
  lemma {:induction false} SmallerStack(services: Services, name: string, stack: set<string>, smaller: set<string>)
    requires smaller <= stack && Plain(services, name, stack).Success?
    ensures Plain(services, name, smaller) == Plain(services, name, stack)
    decreases services.Keys - stack
  {
    if Raw(services, name).Some? && BaseOf(services, name).Some? {
      SmallerStack(services, BaseOf(services, name).value, stack + {name}, smaller + {name});
    }
  }

  /** Plain resolution fails exactly when the service reaches a cycle or something on the stack. */
  lemma {:induction false} PlainFails(services: Services, name: string, stack: set<string>)
    ensures Plain(services, name, stack).Failure? <==>
              ReachesCycle(services, name) || name in stack || exists s :: s in stack && LeadsTo(services, name, s)
    decreases services.Keys - stack
  {
    hide LeadsTo, ReachesCycle;
    if name !in stack {
      match BaseOf(services, name) {
        case None => NoBaseNoCycle(services, name);
        case Some(base) =>
          PlainFails(services, base, stack + {name});
          ReachesThrough(services, name, base);
          forall s
            ensures LeadsTo(services, name, s) <==> base == s || LeadsTo(services, base, s)
          {
            LeadsThrough(services, name, base, s);
          }
          OnCycleIs(services, name);
      }
    }
  }

  lemma OnCycleIs(services: Services, name: string)
    ensures OnCycle(services, name) <==> LeadsTo(services, name, name)
  {
  }

  /** Without a stack: exactly when the service reaches a cycle. */
  lemma PlainFailsOnCycles(services: Services, name: string)
    ensures Plain(services, name, {}).Failure? <==> ReachesCycle(services, name)
  {
    PlainFails(services, name, {});
  }

  /** The plain resolution of a service, from that of its base. */
  lemma PlainFromBase(services: Services, name: string, base: string)
    requires BaseOf(services, name) == Some(base)
    ensures Plain(services, name, {}).Failure? <==> Plain(services, base, {}).Failure?
    ensures Plain(services, name, {}).Success? ==>
              Plain(services, name, {}).value == Overlay(Plain(services, base, {}).value, Raw(services, name).value)
  {
    hide LeadsTo, ReachesCycle, Overlay, OnCycle;
    PlainFailsOnCycles(services, name);
    PlainFailsOnCycles(services, base);
    ReachesThrough(services, name, base);
    PlainFails(services, base, {name});
    assert {} + {name} == {name};
    if Plain(services, base, {name}).Success? {
      SmallerStack(services, base, {name}, {});
    }
    CycleGoesRound(services, name, base);
  }

  /** A service on a cycle extends one on the same cycle. */
  lemma CycleGoesRound(services: Services, name: string, base: string)
    requires BaseOf(services, name) == Some(base)
    ensures OnCycle(services, name) ==> ReachesCycle(services, base)
  {
    if OnCycle(services, name) {
      LeadsThrough(services, name, base, name);
      LeadsThrough(services, name, base, base);
      if base != name {
        LeadsToBase(services, base, name, base);
      }
      assert OnCycle(services, base);
      assert Ancestor(services, base, 0) == Some(base);
    }
  }

  // ----- resolution with a memo -----

  class Resolver {
    const services: Services
    var resolved: map<string, Service>

    constructor (services: Services)
      ensures this.services == services && resolved == map[]
    {
      this.services := services;
      resolved := map[];
    }

    /** Every memoised service is a defined one, resolved as without the memo. */
    ghost predicate Valid()
      reads this
    {
      forall name | name in resolved ::
        Raw(services, name).Some? && Plain(services, name, {}) == Success(resolved[name])
    }

    method LayOver(inherited: Service, own: Service) returns (result: Service)
      ensures result == Overlay(inherited, own)
    {
      result := inherited;
      var left := own.Keys;
      while left != {}
        invariant left <= own.Keys
        invariant result.Keys == inherited.Keys + (own.Keys - left - {"extends"})
        invariant forall key | key in result ::
                    result[key] == if key in own && key !in left && key != "extends" then OverlayOne(inherited, key, own[key])
                                   else inherited[key]
        decreases left
      {
        var key :| key in left;
        left := left - {key};
        if key == "extends" {
          continue;
        }
        if own[key].Obj? && key in result && result[key].Obj? {
          result := result[key := Obj(result[key].members + own[key].members)];
        } else {
          result := result[key := own[key]];
        }
      }
    }

    /** One service; the stack holds the services that led here. */
    method One(name: string, stack: set<string>) returns (r: Result<Service>)
      requires Valid()
      requires forall s | s in stack :: LeadsTo(services, s, name)
      modifies this`resolved
      ensures Valid()
      ensures r == Plain(services, name, {})
      ensures resolved.Keys >= old(resolved.Keys)
      ensures r.Success? && Raw(services, name).Some? ==> name in resolved
      decreases services.Keys - stack
    {
      hide LeadsTo, ReachesCycle, Plain, Overlay;
      if name in resolved {
        return Success(resolved[name]);
      }
      if name in stack {
        CycleFails(services, name);
        return Failure;
      }
      var raw := Raw(services, name);
      if raw.None? {
        PlainLeaf(services, name);
        return Success(map[]);
      }
      var inherited: Service := map[];
      match BaseOf(services, name) {
        case None =>
          PlainLeaf(services, name);
        case Some(base) =>
          PlainFromBase(services, name, base);
          LeadsThrough(services, name, base, base);
          forall s | s in stack
            ensures LeadsTo(services, s, base)
          {
            LeadsToBase(services, s, name, base);
          }
          var below := One(base, stack + {name});
          if below.Failure? {
            return Failure;
          }
          inherited := below.value;
      }
      var result := LayOver(inherited, raw.value);
      resolved := resolved[name := result];
      r := Success(result);
    }

    /**
     `resolve_local_extends`, in whatever order the services come: it fails exactly when some service
     reaches a cycle, and otherwise resolves every service as plain recursion does.
     */
    method ResolveAll() returns (ok: bool)
      requires resolved == map[]
      modifies this`resolved
      ensures ok <==> forall name | name in services :: !ReachesCycle(services, name)
      ensures ok ==> resolved.Keys == set name | name in services && services[name].Obj?
      ensures ok ==> forall name | name in resolved :: Plain(services, name, {}) == Success(resolved[name])
    {
      hide LeadsTo, ReachesCycle, Plain;
      var left := services.Keys;
      while left != {}
        invariant Valid() && left <= services.Keys
        invariant forall name | name in services && name !in left ::
                    !ReachesCycle(services, name) && (services[name].Obj? ==> name in resolved)
        decreases left
      {
        var name :| name in left;
        PlainFailsOnCycles(services, name);
        var r := One(name, {});
        if r.Failure? {
          return false;
        }
        left := left - {name};
      }
      ok := true;
    }
  }

  lemma PlainLeaf(services: Services, name: string)
    requires BaseOf(services, name).None?
    ensures Plain(services, name, {}) ==
            match Raw(services, name)
            case None => Success(map[])
            case Some(own) => Success(Overlay(map[], own))
  {
  }

  lemma CycleFails(services: Services, name: string)
    requires LeadsTo(services, name, name)
    ensures Plain(services, name, {}).Failure?
  {
    PlainFailsOnCycles(services, name);
    assert Ancestor(services, name, 0) == Some(name) && OnCycle(services, name);
  }
}

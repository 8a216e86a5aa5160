/**
 * Who owns the credentials Secret, in terms of its list of owners: reconcileSecret and syncControllerRef of
 * internal/controller/repository_controller.go.
 */
module Owners {
  import opened Outcomes
  import opened Repository
  import opened RepositoryRuns

  /** The first controller in the list is this resource. */
  predicate ControlledBy(owners: seq<OwnerRef>, me: Identity) {
    exists i :: 0 <= i < |owners| && owners[i].controller && owners[i].uid == me.uid && owners[i].name == me.name
      && forall j :: 0 <= j < i ==> !owners[j].controller
  }

  predicate Uncontrolled(owners: seq<OwnerRef>) {
    forall i :: 0 <= i < |owners| ==> !owners[i].controller
  }

  /** The Secret goes with its Repository under the policy Delete, and outlives it otherwise. */
  predicate OwnedFor(owners: seq<OwnerRef>, me: Identity, policy: DeletionPolicy) {
    match policy
    case Delete => ControlledBy(owners, me)
    case Retain => Uncontrolled(owners)
  }

  /** The controller of an object is the first owner that says so. */
  lemma {:induction false} ControllerExactly(owners: seq<OwnerRef>)
    ensures ControllerOf(owners).None? <==> Uncontrolled(owners)
    ensures ControllerOf(owners).Some? ==>
      exists i :: 0 <= i < |owners| && owners[i] == ControllerOf(owners).value && owners[i].controller
        && forall j :: 0 <= j < i ==> !owners[j].controller
  {
    if owners != [] && !owners[0].controller {
      ControllerExactly(owners[1..]);
      if ControllerOf(owners).Some? {
        var i :| 0 <= i < |owners[1..]| && owners[1..][i] == ControllerOf(owners).value && owners[1..][i].controller
          && forall j :: 0 <= j < i ==> !owners[1..][j].controller;
        assert owners[i + 1] == ControllerOf(owners).value;
        forall j | 0 <= j < i + 1 ensures !owners[j].controller {
          assert j > 0 ==> owners[j] == owners[1..][j - 1];
        }
      } else {
        forall i | 0 <= i < |owners| ensures !owners[i].controller {
          assert i > 0 ==> owners[i] == owners[1..][i - 1];
        }
      }
    }
  }

  lemma ControlledExactly(owners: seq<OwnerRef>, me: Identity)
    ensures ControlledBy(owners, me) <==>
      && ControllerOf(owners).Some?
      && ControllerOf(owners).value.uid == me.uid && ControllerOf(owners).value.name == me.name
  {
    ControllerExactly(owners);
    if ControlledBy(owners, me) {
      var i :| 0 <= i < |owners| && owners[i].controller && owners[i].uid == me.uid && owners[i].name == me.name
        && forall j :: 0 <= j < i ==> !owners[j].controller;
      var k :| 0 <= k < |owners| && owners[k] == ControllerOf(owners).value && owners[k].controller
        && forall j :: 0 <= j < k ==> !owners[j].controller;
      assert !(i < k) && !(k < i);
    } else if ControllerOf(owners).Some? {
      var k :| 0 <= k < |owners| && owners[k] == ControllerOf(owners).value && owners[k].controller
        && forall j :: 0 <= j < k ==> !owners[j].controller;
    }
  }

  /** The other owners are those that are no controllers, in their order. */
  lemma {:induction false} OthersExactly(before: seq<OwnerRef>, ref: OwnerRef, after: seq<OwnerRef>)
    ensures Others(before + [ref] + after) == Others(before) + (if ref.controller then [] else [ref]) + Others(after)
  {
    var owners := before + [ref] + after;
    if before == [] {
      assert owners == [ref] + after;
    } else {
      assert owners[1..] == before[1..] + [ref] + after;
      OthersExactly(before[1..], ref, after);
    }
  }

  /**
   * A write that ends well or changes the Secret leaves it with this Repository as its controller under Delete and with
   * no controller under Retain, whatever controlled it before, and with all its other owners.
   */
  lemma WrittenIsOwned(live: Option<Secret>, clock: nat, seen: Option<Secret>, url: string, password: Password,
      me: Identity, policy: DeletionPolicy, write: Write)
    requires live.Some? && seen.Some? ==> live.value.owners == seen.value.owners
    ensures var w := CreateOrPatch(live, clock, seen, url, password, WantedOwner(me, policy), write);
      (w.ok || w.secret != live) && w.secret.Some? ==>
        && OwnedFor(w.secret.value.owners, me, policy)
        && Others(w.secret.value.owners) == (if seen.Some? then Others(seen.value.owners) else [])
  {
    var want := WantedOwner(me, policy);
    if seen.Some? {
      SyncSettles(seen.value.owners, want);
      ControlledExactly(SyncControllerRef(seen.value.owners, want), me);
      ControllerExactly(SyncControllerRef(seen.value.owners, want));
    }
    assert want.Some? ==> [want.value][0] == want.value;
  }

  // ----- over all runs

  /** Nobody but the operator writes owners, so those it read are those it replaces. */
  predicate OwnersKept(s: State) {
    && (s.pass.Writing? && s.pass.seen.Some? && s.secret.Some? ==> s.secret.value.owners == s.pass.seen.value.owners)
    && (s.pass.Starting? && s.secret.Some? ==> OwnedFor(s.secret.value.owners, s.me, s.pass.copy.spec.policy))
  }

  lemma WriteKeepsOwners(s: State, write: Write)
    requires OwnersKept(s)
    ensures var s' := WriteSecret(s, write); OwnersKept(s')
    ensures var s' := WriteSecret(s, write); s.pass.Writing? && s'.secret != s.secret && s'.secret.Some? ==>
      && OwnedFor(s'.secret.value.owners, s.me, s.pass.copy.spec.policy)
      && (s.pass.seen.Some? ==> Others(s'.secret.value.owners) == Others(s.pass.seen.value.owners))
  {
    if s.pass.Writing? {
      WrittenIsOwned(s.secret, s.clock, s.pass.seen, s.pass.url, s.pass.password, s.me, s.pass.copy.spec.policy, write);
    }
  }

  /** Other phases leave the Secret alone, and none but the write leads past it. */
  lemma PassKeepsSecret(s: State, step: Step)
    requires ByOperator(step) && !step.WriteStep? && !step.ReadStep?
    ensures var s' := Next(s, step);
      s'.secret == s.secret && s'.me == s.me && (s'.pass == s.pass || (!s'.pass.Writing? && !s'.pass.Starting?))
  {
  }

  lemma ReadKeepsOwners(s: State, readable: bool, seedReadable: bool, late: bool, generated: Password)
    requires OwnersKept(s)
    ensures var s' := ReadSecret(s, readable, seedReadable, late, generated); OwnersKept(s') && s'.me == s.me
  {
  }

  /** From outside, the Secret is given another password or removed. */
  lemma WorldKeepsOwners(s: State, step: Step)
    requires !ByOperator(step)
    ensures var s' := Next(s, step);
      && s'.pass == s.pass && s'.me == s.me
      && (s'.secret.Some? ==> s.secret.Some? && s'.secret.value.owners == s.secret.value.owners)
  {
  }

  lemma OwnersStep(s: State, step: Step)
    requires OwnersKept(s)
    ensures OwnersKept(Next(s, step)) && Next(s, step).me == s.me
  {
    match step
    case WriteStep(write) => WriteKeepsOwners(s, write);
    case ReadStep(readable, seedReadable, late, generated) =>
      ReadKeepsOwners(s, readable, seedReadable, late, generated);
    case _ =>
      if ByOperator(step) {
        PassKeepsSecret(s, step);
      } else {
        WorldKeepsOwners(s, step);
      }
  }

  /**
   * Over every run, whatever happens to the Secret between the steps of a pass: a pass that gets past the Secret finds
   * it gone, or controlled by this Repository exactly if the policy it read was Delete.
   */
  lemma {:induction false} SecretIsOwned(s: State, steps: seq<Step>)
    requires OwnersKept(s)
    ensures var end := After(s, steps);
      && OwnersKept(end)
      && (end.pass.Starting? && end.secret.Some? ==>
            && (ControllerOf(end.secret.value.owners).Some? <==> end.pass.copy.spec.policy.Delete?)
            && (end.pass.copy.spec.policy.Delete? ==> ControlledBy(end.secret.value.owners, s.me)))
    decreases |steps|
  {
    if steps == [] {
      if s.pass.Starting? && s.secret.Some? {
        ControllerExactly(s.secret.value.owners);
        ControlledExactly(s.secret.value.owners, s.me);
      }
    } else {
      OwnersStep(s, steps[0]);
      SecretIsOwned(Next(s, steps[0]), steps[1..]);
    }
  }
}

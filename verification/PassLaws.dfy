/**
 * How each phase of a pass ends, and what edits of the spec leave alone over a whole run:
 * internal/controller/repository_controller.go and api/v1/repository_types.go.
 */
module PassLaws {
  import opened Outcomes
  import opened BorgBase
  import opened Repository
  import opened RepositoryRuns
  import opened RepositoryLaws

  // ----- how phases end

  /**
   * A pass goes on to the account if and only if the resource is not being deleted, has its finalizer, is not
   * suspended, and there is a token; and to the finalizing if it is being deleted and has its finalizer.
   */
  lemma BeginExactly(s: State, token: bool, finalizer: Write)
    requires s.pass.Idle? && s.live.Some?
    ensures var r, s' := s.live.value, Begin(s, token, finalizer);
      var held := r.finalizer || finalizer.Applied?;
      && (s'.pass.Resolving? <==> !r.deleting && held && !r.spec.suspend && token)
      && (s'.pass.Ending? <==> !r.deleting && held && (r.spec.suspend || !token))
      && (s'.pass.Finalizing? <==> r.deleting && r.finalizer)
      && (!s'.pass.Idle? ==> s'.pass.copy.spec == r.spec && s'.pass.copy.base == r.status)
      && (s'.pass.Resolving? ==> s'.pass.copy.status == r.status)
      && (s'.pass.Ending? ==> s'.pass.copy.status == r.status.(ready := false))
      && s'.live == Some(r.(finalizer := r.finalizer || (!r.deleting && !finalizer.Rejected?)))
  {
  }

  /**
   * Reading goes on with the password of the Secret, else with the seed if one is set, else with a new one, and with
   * that only if nothing says that there was one before: no recorded ID, no initialization, no adoption, no use.
   */
  lemma PasswordExactly(s: State, readable: bool, seedReadable: bool, late: bool, generated: Password)
    requires s.pass.Reading?
    ensures var copy, remote, s' := s.pass.copy, s.pass.remote, ReadSecret(s, readable, seedReadable, late, generated);
      var known := s.secret.Some? && s.secret.value.password != "";
      var seed := SeedRead(s, copy, seedReadable, late);
      var unused := copy.base.id == "" && !copy.base.initialized && !copy.status.adopted && remote.usage <= 0.0;
      && (s'.pass.Writing? <==>
            readable && ResticURL(remote).Ok? && (known || (if copy.spec.seed.Some? then seed.Some? else unused)))
      && (s'.pass.Writing? ==>
            && s'.pass.url == ResticURL(remote).value && s'.pass.seen == s.secret
            && s'.pass.password == if known then s.secret.value.password
                                   else if copy.spec.seed.Some? then seed.value else generated)
      && (!s'.pass.Writing? ==> s'.pass == Ending(copy.(status := copy.status.(ready := false))))
  {
  }

  /** A seed is the one that was set when the pass began or, if it was edited since, the one that is set now. */
  lemma SeedExactly(s: State, copy: Copy, late: bool)
    ensures SeedRead(s, copy, false, late) == None
    ensures SeedRead(s, copy, true, false) == copy.spec.seed
    ensures s.live.Some? && s.live.value.spec.seed.Some? ==> SeedRead(s, copy, true, true) == s.live.value.spec.seed
    ensures s.live.Some? && s.live.value.spec.seed.None? ==> SeedRead(s, copy, true, true) == copy.spec.seed
    ensures s.live.None? ==> SeedRead(s, copy, true, true) == copy.spec.seed
  {
  }

  /** The remote is let go if it is retained, if none was recorded, or if the deletion said no error. */
  lemma FinalizeExactly(s: State, token: bool, delete: Write)
    requires s.pass.Finalizing?
    ensures var copy, s' := s.pass.copy, Finalize(s, token, delete);
      var deletes := copy.spec.policy.Delete? && copy.base.id != "";
      && (s'.pass.Releasing? <==> !deletes || (token && delete.Applied?))
      && (!s'.pass.Releasing? ==> s'.pass.Ending?)
      && s'.account == if deletes && token && !delete.Rejected? then s.account - {copy.base.id} else s.account
  {
  }

  /** The resource goes with its finalizer, and whenever that says an error the status is written once more. */
  lemma ReleaseExactly(s: State, write: Write)
    requires s.pass.Releasing?
    ensures var s' := Release(s, write);
      && s'.live == (if write.Rejected? then s.live else None)
      && (s'.pass.Idle? <==> write.Applied?) && (!s'.pass.Idle? ==> s'.pass == Ending(s.pass.copy))
  {
  }

  /** A rotation that added its key puts it into the Secret unless the patch is rejected, and changes nothing else. */
  lemma RotatePatchExactly(s: State, password: Password, write: Write)
    ensures var s' := RotatePatch(s, password, write);
      && s'.added == s.added - {password}
      && (password in s.added && s.secret.Some? && write != Rejected ==>
            s'.secret == Some(s.secret.value.(password := password, version := s.clock)) && s'.clock == s.clock + 1)
      && (password !in s.added || write == Rejected ==> s'.secret == s.secret)
      && (s'.secret.None? <==> s.secret.None?)
  {
  }

  // ----- what edits leave alone

  /** An ID that is set for adoption is never taken back or replaced. */
  lemma {:induction false} AdoptionStays(s: State, steps: seq<Step>)
    requires s.live.Some? && s.live.value.spec.existingID != ""
    ensures var end := After(s, steps);
      end.live.Some? ==> end.live.value.spec.existingID == s.live.value.spec.existingID
    decreases |steps|
  {
    if steps != [] {
      var s' := Next(s, steps[0]);
      EditsSpec(s, steps[0]);
      if s'.live.Some? {
        AdoptionStays(s', steps[1..]);
      } else {
        GoneForever(s', steps[1..]);
      }
    }
  }

  /** Only an edit changes the spec, and only as it is admitted. */
  lemma EditsSpec(s: State, step: Step)
    ensures var s' := Next(s, step);
      && (s'.live.Some? ==> s.live.Some?)
      && (s'.live.Some? && s'.live.value.spec != s.live.value.spec ==>
            && step.EditStep? && s'.live.value.spec == step.spec
            && Admitted(s.live.value.spec, s.live.value.status, step.spec))
  {
    if ByOperator(step) {
      PassKeepsSpec(s, step);
    } else if !step.EditStep? {
      WorldKeepsSpec(s, step);
    }
  }

  lemma PassKeepsSpec(s: State, step: Step)
    requires ByOperator(step)
    ensures var s' := Next(s, step); s'.live.Some? ==> s.live.Some? && s'.live.value.spec == s.live.value.spec
  {
  }

  lemma WorldKeepsSpec(s: State, step: Step)
    requires !ByOperator(step) && !step.EditStep?
    ensures var s' := Next(s, step); s'.live.Some? ==> s.live.Some? && s'.live.value.spec == s.live.value.spec
  {
  }

  lemma {:induction false} GoneForever(s: State, steps: seq<Step>)
    requires s.live.None?
    ensures After(s, steps).live.None?
    decreases |steps|
  {
    if steps != [] {
      EditsSpec(s, steps[0]);
      GoneForever(Next(s, steps[0]), steps[1..]);
    }
  }

  /** Once an ID is recorded, it is settled whether it is an adopted one. */
  lemma {:induction false} RecordedNeverAdopts(s: State, steps: seq<Step>, id: string)
    requires Steady(s) && Recorded(s, id) && id != ""
    requires s.live.Some? && s.live.value.spec.existingID == ""
    ensures After(s, steps).live.Some? ==> After(s, steps).live.value.spec.existingID == ""
    decreases |steps|
  {
    if steps != [] {
      var s' := Next(s, steps[0]);
      EditsSpec(s, steps[0]);
      SteadyStep(s, steps[0]);
      RecordedStep(s, steps[0], id);
      if s'.live.Some? {
        RecordedNeverAdopts(s', steps[1..], id);
      } else {
        GoneForever(s', steps[1..]);
      }
    }
  }
}

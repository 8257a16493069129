/**
 * What a history of the remote module (packages/dt-module/src/dt-remote-module.ts) leaves it serving, said of
 * what the settlements of its registrations and refreshes brought, and of the times its calls were made.
 */
module RemoteSettlements {
  import opened Prelude
  import opened RemoteModule

  // ----- what the module serves -----

  /** The step settles a registration or a refresh that is under way. */
  predicate Settlement(s: System, e: Event) {
    match e
    case RegistrationSettles(_, _, _) => InFlight(s) && Current(s).Fetching?
    case RefreshSettles(k, _) => k < |s.refreshes| && s.refreshes[k].RefreshFetching?
    case _ => false
  }

  /** The entry a settlement brings, with its hashes: the pin's own, else for a registration the newest cached one, without. */
  function Brought(pin: string, e: Event): Option<(CachedModule, Option<Hashes>)> {
    match e
    case RegistrationSettles(Some(own), _, _) => Some((CachedModule(own.ref, pin, own.document), own.hashes))
    case RegistrationSettles(None, Some(newest), _) => Some((newest, None))
    case RefreshSettles(_, Some(own)) => Some((CachedModule(own.ref, pin, own.document), own.hashes))
    case _ => None
  }

  /** What the last settlement that brought an entry brought. */
  function LastBrought(pin: string, events: seq<Event>): Option<(CachedModule, Option<Hashes>)>
    decreases |events|
  {
    if events == [] then None
    else
      var n := |events| - 1;
      if Settlement(After(Initial(pin), events[..n]), events[n]) && Brought(pin, events[n]).Some? then Brought(pin, events[n])
      else LastBrought(pin, events[..n])
  }

  /** The module serves this entry, and these are the hashes getPolicyHash answers. */
  ghost predicate Serves(f: Fields, entry: CachedModule, hashes: Option<Hashes>) {
    f.registered == Some(entry) && (HoldsPin(f) <==> entry.pin == f.pin)
    && forall id :: PolicyHash(f, id)
         == if entry.pin == f.pin && hashes.Some? && id in hashes.value then Some(hashes.value[id]) else None
  }

  /** A settlement that brings an entry makes it the one served; no other step changes what is served. */
  lemma StepServes(s: System, e: Event)
    ensures Settlement(s, e) && Brought(s.f.pin, e).Some? ==>
              Serves(Step(s, e).f, Brought(s.f.pin, e).value.0, Brought(s.f.pin, e).value.1)
    ensures !(Settlement(s, e) && Brought(s.f.pin, e).Some?) ==>
              Step(s, e).f.registered == s.f.registered && Step(s, e).f.registeredHashes == s.f.registeredHashes
    ensures Step(s, e).f.pin == s.f.pin
  {
    hide WithHashes, WithinRefreshInterval;
  }

  lemma AfterLast(s: System, events: seq<Event>)
    requires events != []
    ensures After(s, events) == Step(After(s, events[..|events| - 1]), events[|events| - 1])
  {
    hide Step;
    var n := |events| - 1;
    assert events == events[..n] + [events[n]];
    AfterJoin(s, events[..n], [events[n]]);
    assert [events[n]][1..] == [];
    assert After(After(s, events[..n]), [events[n]]) == Step(After(s, events[..n]), events[n]);
  }

  /**
   * In every history the module serves the entry its last fruitful settlement brought, and getPolicyHash
   * answers exactly the hashes that came with it at the configured pin; before the first it serves none.
   */
  lemma {:induction false} ServesLastBrought(pin: string, events: seq<Event>)
    ensures var f := After(Initial(pin), events).f; var last := LastBrought(pin, events);
            f.pin == pin
            && if last.Some? then Serves(f, last.value.0, last.value.1)
               else f.registered == None && forall id :: PolicyHash(f, id) == None
    decreases |events|
  {
    hide Step, Settlement, Brought, PolicyHash, Serves;
    if events == [] {
      NothingServed(pin);
    } else {
      var n := |events| - 1;
      ServesLastBrought(pin, events[..n]);
      AfterLast(Initial(pin), events);
      StepServes(After(Initial(pin), events[..n]), events[n]);
      SameServed(After(Initial(pin), events[..n]).f, After(Initial(pin), events).f);
    }
  }

  lemma NothingServed(pin: string)
    ensures forall id :: PolicyHash(Initial(pin).f, id) == None
  {
  }

  lemma SameServed(f: Fields, g: Fields)
    ensures f.pin == g.pin && f.registered == g.registered && f.registeredHashes == g.registeredHashes ==>
              (forall id :: PolicyHash(f, id) == PolicyHash(g, id)) && forall entry, hashes :: Serves(f, entry, hashes) <==> Serves(g, entry, hashes)
  {
  }

  /**
   * A module that serves another pin took that entry from a registration that settled without its own
   * pin's; every settlement that brings its own pin's entry makes it hold the pin, with that document.
   */
  lemma {:induction false} OtherPinOnlyWithoutOwn(pin: string, events: seq<Event>)
    requires After(Initial(pin), events).f.registered.Some? && !HoldsPin(After(Initial(pin), events).f)
    ensures exists i: nat, newest, error :: i < |events| && Settlement(After(Initial(pin), events[..i]), events[i])
              && events[i] == RegistrationSettles(None, Some(newest), error) && newest.pin != pin
              && After(Initial(pin), events).f.registered == Some(newest)
    decreases |events|
  {
    hide Step, Settlement;
    ServesLastBrought(pin, events);
    if events == [] {
      assert false;
    } else {
      var n := |events| - 1;
      AfterLast(Initial(pin), events);
      ServesLastBrought(pin, events[..n]);
      StepServes(After(Initial(pin), events[..n]), events[n]);
      if Settlement(After(Initial(pin), events[..n]), events[n]) && Brought(pin, events[n]).Some? {
        assert events[n] == RegistrationSettles(None, Some(events[n].newest.value), events[n].error);
      } else {
        OtherPinOnlyWithoutOwn(pin, events[..n]);
        var i: nat, newest, error :| i < n && Settlement(After(Initial(pin), events[..n][..i]), events[..n][i])
              && events[..n][i] == RegistrationSettles(None, Some(newest), error) && newest.pin != pin
              && After(Initial(pin), events[..n]).f.registered == Some(newest);
        assert events[..n][..i] == events[..i];
      }
    }
  }

  // ----- what fails -----

  /** A registration settled without any entry and with this error. */
  ghost predicate Barren(pin: string, events: seq<Event>, error: string) {
    exists i: nat :: i < |events| && events[i] == RegistrationSettles(None, None, error) && Settlement(After(Initial(pin), events[..i]), events[i])
  }

  function ErrorOf(r: Registration): Option<string> {
    match r
    case Rejected(error) => Some(error)
    case Caught(error) => Some(error)
    case Done(Err(error)) => Some(error)
    case _ => None
  }

  /** Every error held anywhere is one of these. */
  ghost predicate ErrorsAmong(s: System, errors: iset<string>) {
    (forall r :: 0 <= r < |s.regs| && ErrorOf(s.regs[r]).Some? ==> ErrorOf(s.regs[r]).value in errors)
    && (s.f.lastFailure.Some? ==> s.f.lastFailure.value.error in errors)
    && forall c :: 0 <= c < |s.calls| && s.calls[c].Failed? ==> s.calls[c].error in errors
  }

  lemma StepErrors(s: System, e: Event, errors: iset<string>)
    requires ErrorsAmong(s, errors)
    requires Settlement(s, e) && e.RegistrationSettles? && e.own == None && e.newest == None ==> e.error in errors
    ensures ErrorsAmong(Step(s, e), errors)
  {
    hide WithHashes, WithinRefreshInterval, RefreshStarts, HoldsPin;
  }

  /** No caller is given an error but that of a registration that settled without any entry. */
  lemma {:induction false} FailuresAreBarren(pin: string, events: seq<Event>)
    ensures ErrorsAmong(After(Initial(pin), events), iset error | Barren(pin, events, error))
    decreases |events|
  {
    hide Step, Settlement, ErrorsAmong;
    if events == [] {
      NoErrors(pin);
    } else {
      var n := |events| - 1;
      FailuresAreBarren(pin, events[..n]);
      AfterLast(Initial(pin), events);
      var errors := iset error | Barren(pin, events, error);
      forall error | Barren(pin, events[..n], error) ensures error in errors {
        var i: nat :| i < n && events[..n][i] == RegistrationSettles(None, None, error)
                      && Settlement(After(Initial(pin), events[..n][..i]), events[..n][i]);
        assert events[..n][..i] == events[..i];
      }
      ErrorsGrow(After(Initial(pin), events[..n]), (iset error | Barren(pin, events[..n], error)), errors);
      StepErrors(After(Initial(pin), events[..n]), events[n], errors);
    }
  }

  lemma NoErrors(pin: string)
    ensures forall errors :: ErrorsAmong(Initial(pin), errors)
  {
  }

  lemma ErrorsGrow(s: System, a: iset<string>, b: iset<string>)
    requires ErrorsAmong(s, a) && forall error :: error in a ==> error in b
    ensures ErrorsAmong(s, b)
  {
  }

  /** How a registration settles: it takes an entry when one is brought, and is rejected with its error otherwise. */
  lemma RegistrationOutcome(s: System, own: Option<Own>, newest: Option<CachedModule>, error: string)
    requires Settlement(s, RegistrationSettles(own, newest, error))
    ensures var e := RegistrationSettles(own, newest, error); var t := Step(s, e);
            t.f.registering == s.f.registering && t.calls == s.calls
            && if own.Some? then HoldsPin(t.f) && t.f.registered.value.document == own.value.document
                                 && Current(t) == Adopted(t.f.registered.value)
               else if newest.Some? then t.f.registered == newest && Current(t) == Adopted(newest.value)
               else t.f == s.f && Current(t) == Rejected(error)
  {
  }

  /** What a registration has come to, from its settlement on. */
  function OutcomeOf(r: Registration): Option<Result<CachedModule, string>> {
    match r
    case Asking(_) => None
    case Fetching => None
    case Adopted(entry) => Some(Ok(entry))
    case Done(result) => Some(result)
    case _ => Some(Err(ErrorOf(r).value))
  }

  /**
   * What a registration has come to stays, whatever happens next; and every call that waited for it ends
   * with it: answered from its entry, or failed with its error. A failure is remembered when it is caught.
   */
  lemma OutcomesStay(s: System, e: Event)
    requires Inv(s)
    ensures |s.regs| <= |Step(s, e).regs|
         && forall r :: 0 <= r < |s.regs| && OutcomeOf(s.regs[r]).Some? ==> OutcomeOf(Step(s, e).regs[r]) == OutcomeOf(s.regs[r])
    ensures forall c :: 0 <= c < |s.calls| && s.calls[c].Waiting? ==>
              var now := Step(s, e).calls[c];
              now == s.calls[c] || match OutcomeOf(s.regs[s.calls[c].reg])
                                   case Some(Ok(entry)) => now.Answered? && now.entry == entry
                                   case Some(Err(error)) => now == Failed(error)
                                   case None => false
    ensures Step(s, e).f.lastFailure == if e.RegistrationCaught? && InFlight(s) && Current(s).Rejected?
                                        then Some(Failure(e.now, Current(s).error)) else s.f.lastFailure
  {
    hide WithHashes, WithinRefreshInterval, RefreshStarts, MemoSound;
  }

  /** A settled registration is over once its handlers have run, and the calls that wait for it can then all end. */
  lemma RegistrationEnds(s: System, now: int, c: nat)
    requires Inv(s) && InFlight(s) && OutcomeOf(Current(s)).Some? && c < |s.calls| && s.calls[c] == Waiting(s.f.registering.value)
    ensures var r := s.f.registering.value; var t := Step(Step(s, RegistrationCaught(now)), RegistrationFinally);
            t.f.registering == None && t.regs[r] == Done(OutcomeOf(s.regs[r]).value) && !Step(t, Resumes(c)).calls[c].Waiting?
  {
    hide WithHashes;
  }

  // ----- when a call reaches the network -----

  /** Within a minute of `at`. */
  predicate WithinMinute(at: int, now: int) { at <= now < at + 60_000 }

  /**
   * What a call does: a registered module answers it at once; within a minute of a failed registration it
   * fails at once with that error; it joins a registration under way; and only else it starts one, which
   * asks for the portal's origin when that is not known.
   */
  lemma CallOutcome(s: System, now: int)
    requires Inv(s)
    ensures var t := Step(s, GetMetadata(now)); var n := |s.calls|;
            |t.calls| == n + 1 && t.calls[..n] == s.calls
            && if s.f.registered.Some? then t.calls[n].Answered? && t.calls[n].entry == s.f.registered.value && t.regs == s.regs
               else if s.f.lastFailure.Some? && WithinMinute(s.f.lastFailure.value.at, now)
               then t.calls[n] == Failed(s.f.lastFailure.value.error) && t.regs == s.regs && t.f == s.f && t.refreshes == s.refreshes
               else if exists r :: 0 <= r < |s.regs| && !s.regs[r].Done?
               then t.calls[n].Waiting? && t.regs == s.regs && t.f == s.f && t.calls[n].reg < |s.regs| && !s.regs[t.calls[n].reg].Done?
               else t.calls[n] == Waiting(|s.regs|) && t.regs == s.regs + [Asking(s.f.portalOrigin == None)] && t.refreshes == s.refreshes
  {
    hide WithHashes;
  }

  /** The call starts a background refresh. */
  predicate Refreshes(s: System, e: Event) { e.GetMetadata? && |Step(s, e).refreshes| > |s.refreshes| }

  /** The module has something left to fetch: its own pin, or the portal's origin. */
  predicate Lacks(f: Fields) { f.registered.Some? && (f.registered.value.pin != f.pin || f.portalOrigin == None) }

  lemma RefreshOutcome(s: System, now: int)
    ensures Refreshes(s, GetMetadata(now)) <==>
              Lacks(s.f) && !(s.f.lastRefreshAt.Some? && WithinMinute(s.f.lastRefreshAt.value, now))
    ensures var t := Step(s, GetMetadata(now));
            if Refreshes(s, GetMetadata(now))
            then t.f.lastRefreshAt == Some(now)
                 && t.refreshes == s.refreshes + [RefreshAsking(s.f.portalOrigin == None, s.f.registered.value.pin != s.f.pin)]
            else t.f.lastRefreshAt == s.f.lastRefreshAt && t.refreshes == s.refreshes
  {
    hide WithHashes;
  }

  lemma OtherRefresh(s: System, e: Event)
    requires !e.GetMetadata?
    ensures Step(s, e).f.lastRefreshAt == s.f.lastRefreshAt && !Refreshes(s, e)
  {
    hide WithHashes;
  }

  /** When the last refresh of a history started. */
  function LastRefresh(s: System, events: seq<Event>): Option<int>
    decreases |events|
  {
    if events == [] then None
    else
      var n := |events| - 1;
      if Refreshes(After(s, events[..n]), events[n]) then Some(events[n].now) else LastRefresh(s, events[..n])
  }

  lemma {:induction false} LastRefreshHeld(pin: string, events: seq<Event>)
    ensures After(Initial(pin), events).f.lastRefreshAt == LastRefresh(Initial(pin), events)
    decreases |events|
  {
    hide Step, Refreshes;
    if events != [] {
      var n := |events| - 1;
      LastRefreshHeld(pin, events[..n]);
      AfterLast(Initial(pin), events);
      if events[n].GetMetadata? { RefreshOutcome(After(Initial(pin), events[..n]), events[n].now); }
      else { OtherRefresh(After(Initial(pin), events[..n]), events[n]); }
    }
  }

  /**
   * In every history a call starts a background refresh exactly when the module has registered, still lacks
   * its own pin or the portal's origin, and the last refresh did not start within the minute before the call.
   */
  lemma RefreshesSpaced(pin: string, events: seq<Event>, now: int)
    ensures var s := After(Initial(pin), events); var last := LastRefresh(Initial(pin), events);
            Refreshes(s, GetMetadata(now)) <==> Lacks(s.f) && !(last.Some? && WithinMinute(last.value, now))
  {
    hide Step, Refreshes, Lacks;
    LastRefreshHeld(pin, events);
    RefreshOutcome(After(Initial(pin), events), now);
  }

  /** The portal's origin, once known, stays known; a step learns it only from an answer that names one, to whom asked. */
  lemma OriginLearnt(s: System, e: Event)
    ensures s.f.portalOrigin.Some? ==> Step(s, e).f.portalOrigin.Some?
    ensures Step(s, e).f.portalOrigin != s.f.portalOrigin ==>
              (e.RegistrationMeta? || e.RefreshMeta?) && Step(s, e).f.portalOrigin == e.origin && e.origin != Some("")
              && (e.RegistrationMeta? ==> InFlight(s) && Current(s) == Asking(true))
              && (e.RefreshMeta? ==> e.refresh < |s.refreshes| && s.refreshes[e.refresh].RefreshAsking? && s.refreshes[e.refresh].ask)
  {
    hide WithHashes;
  }
}

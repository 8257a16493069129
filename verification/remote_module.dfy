/**
 * The remote module's registration (packages/dt-module/src/dt-remote-module.ts): `getMetadata`,
 * the registration its callers share, and the background refreshes, as steps between awaits.
 */
module RemoteModule {
  import opened Prelude

  // ----- documents and their policy hashes -----

  /** An entry of a class array: a class object, or something else left as it is. */
  datatype Item = NotObject(text: string) | ClassEntry(id: Option<string>, policyHash: Option<string>, rest: string)

  /** The class arrays of a module document, by key, and the rest of it. */
  datatype Document = Document(other: string, arrays: map<string, seq<Item>>)

  type Hashes = map<string, string>

  const SERVED_CLASS_ARRAYS: seq<string> :=
    ["componentClasses", "dataFlowClasses", "securityBoundaryClasses", "dataClasses", "controlClasses"]

  const ALL_CLASS_ARRAYS: seq<string> := SERVED_CLASS_ARRAYS + ["analysisClasses", "issueClasses"]

  function ServedHash(item: Item, served: bool, hashes: Option<Hashes>): Option<string>
    requires item.ClassEntry?
  {
    if served && item.id.Some? && hashes.Some? && item.id.value in hashes.value && hashes.value[item.id.value] != ""
    then Some(hashes.value[item.id.value]) else None
  }

  function ServedItem(item: Item, served: bool, hashes: Option<Hashes>): Item {
    if item.NotObject? then item else item.(policyHash := ServedHash(item, served, hashes))
  }

  function ServedItems(items: seq<Item>, served: bool, hashes: Option<Hashes>): seq<Item> {
    seq(|items|, k requires 0 <= k < |items| => ServedItem(items[k], served, hashes))
  }

  /** The document with the hashes on its served classes, and no other hash on any class. */
  function WithHashes(d: Document, hashes: Option<Hashes>): Document {
    d.(arrays := map key | key in d.arrays ::
         if key in ALL_CLASS_ARRAYS then ServedItems(d.arrays[key], key in SERVED_CLASS_ARRAYS, hashes) else d.arrays[key])
  }

  /** withPolicyHashes: a fresh copy, array by array. */
  method WithPolicyHashes(d: Document, hashes: Option<Hashes>) returns (copy: Document)
    ensures copy == WithHashes(d, hashes)
  {
    hide ServedItems, ALL_CLASS_ARRAYS, SERVED_CLASS_ARRAYS, MappedUpTo;
    var arrays := d.arrays;
    var i := 0;
    NoneMapped(d.arrays, hashes);
    while i < |ALL_CLASS_ARRAYS|
      invariant 0 <= i <= |ALL_CLASS_ARRAYS| && MappedUpTo(d.arrays, arrays, i, hashes)
    {
      var key := ALL_CLASS_ARRAYS[i];
      MappedStep(d.arrays, arrays, i, hashes);
      if key in arrays {
        var mapped := MapItems(arrays[key], key in SERVED_CLASS_ARRAYS, hashes);
        arrays := arrays[key := mapped];
      }
      i := i + 1;
    }
    AllMapped(d, arrays, hashes);
    copy := d.(arrays := arrays);
  }

  /** The arrays under the first i keys have been mapped, the others not yet. */
  predicate MappedUpTo(was: map<string, seq<Item>>, now: map<string, seq<Item>>, i: nat, hashes: Option<Hashes>)
    requires i <= |ALL_CLASS_ARRAYS|
  {
    now.Keys == was.Keys
    && forall key :: key in was ==>
         now[key] == if key in ALL_CLASS_ARRAYS[..i] then ServedItems(was[key], key in SERVED_CLASS_ARRAYS, hashes) else was[key]
  }

  lemma NoneMapped(arrays: map<string, seq<Item>>, hashes: Option<Hashes>)
    ensures MappedUpTo(arrays, arrays, 0, hashes)
  {
  }

  lemma MappedStep(was: map<string, seq<Item>>, now: map<string, seq<Item>>, i: nat, hashes: Option<Hashes>)
    requires i < |ALL_CLASS_ARRAYS| && MappedUpTo(was, now, i, hashes)
    ensures var key := ALL_CLASS_ARRAYS[i];
            if key in now then now[key] == was[key] && MappedUpTo(was, now[key := ServedItems(was[key], key in SERVED_CLASS_ARRAYS, hashes)], i + 1, hashes)
            else MappedUpTo(was, now, i + 1, hashes)
  {
    KeysDiffer(i);
    hide ServedItems, ALL_CLASS_ARRAYS, SERVED_CLASS_ARRAYS;
    assert ALL_CLASS_ARRAYS[..i + 1] == ALL_CLASS_ARRAYS[..i] + [ALL_CLASS_ARRAYS[i]];
  }

  lemma AllMapped(d: Document, arrays: map<string, seq<Item>>, hashes: Option<Hashes>)
    requires MappedUpTo(d.arrays, arrays, |ALL_CLASS_ARRAYS|, hashes)
    ensures d.(arrays := arrays) == WithHashes(d, hashes)
  {
    hide ServedItems, SERVED_CLASS_ARRAYS;
    assert ALL_CLASS_ARRAYS[..|ALL_CLASS_ARRAYS|] == ALL_CLASS_ARRAYS;
    assert arrays == WithHashes(d, hashes).arrays;
  }

  lemma KeysDiffer(i: nat)
    requires i < |ALL_CLASS_ARRAYS|
    ensures ALL_CLASS_ARRAYS[i] !in ALL_CLASS_ARRAYS[..i]
  {
    var lengths: seq<nat> := [16, 15, 23, 11, 14, 15, 12];
    assert forall k :: 0 <= k < 7 ==> |ALL_CLASS_ARRAYS[k]| == lengths[k];
    assert ALL_CLASS_ARRAYS[1][0] == 'd' && ALL_CLASS_ARRAYS[5][0] == 'a';
  }

  method MapItems(items: seq<Item>, served: bool, hashes: Option<Hashes>) returns (mapped: seq<Item>)
    ensures mapped == ServedItems(items, served, hashes)
  {
    mapped := [];
    for i := 0 to |items|
      invariant mapped == ServedItems(items, served, hashes)[..i]
    {
      mapped := mapped + [ServedItem(items[i], served, hashes)];
    }
  }

  // ----- the module's fields -----

  /** A cached module document. Two entries with the same reference are the same object. */
  datatype CachedModule = CachedModule(ref: nat, pin: string, document: Document)

  datatype Served = Served(entry: CachedModule, document: Document)

  datatype Failure = Failure(at: int, error: string)

  datatype Fields = Fields(
    pin: string,
    registered: Option<CachedModule>,
    registeredHashes: Option<Hashes>,
    served: Option<Served>,
    registering: Option<nat>,
    lastFailure: Option<Failure>,
    lastRefreshAt: Option<int>,
    portalOrigin: Option<string>)

  const REFRESH_INTERVAL_MS := 60_000

  /** A start in the future, as after the clock was set back, is not within the interval. */
  predicate WithinRefreshInterval(at: int, now: int) { 0 <= now - at < REFRESH_INTERVAL_MS }

  function Adopt(f: Fields, entry: CachedModule, hashes: Option<Hashes>): Fields {
    f.(registered := Some(entry), registeredHashes := if entry.pin == f.pin then hashes else None, served := None)
  }

  /** servedMetadata: the memo, made anew when it is for another entry. */
  function Remember(f: Fields, entry: CachedModule): (g: Fields)
    ensures g.served.Some? && g.served.value.entry == entry
  {
    if f.served.Some? && f.served.value.entry == entry then f
    else
      var hashes := if f.registered == Some(entry) && entry.pin == f.pin then f.registeredHashes else None;
      f.(served := Some(Served(entry, WithHashes(entry.document, hashes))))
  }

  predicate HoldsPin(f: Fields) { f.registered.Some? && f.registered.value.pin == f.pin }

  predicate RefreshStarts(f: Fields, now: int) {
    f.registered.Some? && !(HoldsPin(f) && f.portalOrigin.Some?)
    && !(f.lastRefreshAt.Some? && WithinRefreshInterval(f.lastRefreshAt.value, now))
  }

  function PinOrigin(f: Fields, ask: bool, origin: Option<string>): Fields {
    if ask && origin.Some? && origin.value != "" then f.(portalOrigin := origin) else f
  }

  function PolicyHash(f: Fields, classId: string): Option<string> {
    if HoldsPin(f) && f.registeredHashes.Some? && classId in f.registeredHashes.value then Some(f.registeredHashes.value[classId]) else None
  }

  // ----- the system: registrations, refreshes and calls -----

  /** One registration: asking for /meta, fetching, settled, its handlers run. */
  datatype Registration =
    | Asking(ask: bool)
    | Fetching
    | Adopted(entry: CachedModule)
    | Rejected(error: string)
    | Caught(error: string)
    | Done(result: Result<CachedModule, string>)

  datatype Refresh = RefreshAsking(ask: bool, pinStale: bool) | RefreshFetching | Over

  /** One getMetadata call. */
  datatype Call = Waiting(reg: nat) | Answered(entry: CachedModule, document: Document) | Failed(error: string)

  datatype System = System(f: Fields, regs: seq<Registration>, refreshes: seq<Refresh>, calls: seq<Call>)

  function Initial(pin: string): System { System(Fields(pin, None, None, None, None, None, None, None), [], [], []) }

  /** What the configured pin's lookup or fetch brings: an entry at that pin. */
  datatype Own = Own(ref: nat, document: Document, hashes: Option<Hashes>)

  datatype Event =
    | GetMetadata(now: int)
    | RegistrationMeta(origin: Option<string>)
    | RegistrationSettles(own: Option<Own>, newest: Option<CachedModule>, error: string)
    | RegistrationCaught(now: int)
    | RegistrationFinally
    | Resumes(call: nat)
    | RefreshMeta(refresh: nat, origin: Option<string>)
    | RefreshSettles(refresh: nat, own: Option<Own>)

  function EntryOf(f: Fields, own: Own): CachedModule { CachedModule(own.ref, f.pin, own.document) }

  function BeginRefresh(s: System, now: int): System {
    if RefreshStarts(s.f, now)
    then s.(f := s.f.(lastRefreshAt := Some(now)), refreshes := s.refreshes + [RefreshAsking(s.f.portalOrigin.None?, !HoldsPin(s.f))])
    else s
  }

  function Answer(s: System, entry: CachedModule): System {
    var g := Remember(s.f, entry);
    s.(f := g, calls := s.calls + [Answered(entry, g.served.value.document)])
  }

  function CallGetMetadata(s: System, now: int): System {
    if s.f.registered.Some? then Answer(BeginRefresh(s, now), s.f.registered.value)
    else if s.f.lastFailure.Some? && WithinRefreshInterval(s.f.lastFailure.value.at, now)
    then s.(calls := s.calls + [Failed(s.f.lastFailure.value.error)])
    else if s.f.registering.Some? then s.(calls := s.calls + [Waiting(s.f.registering.value)])
    else s.(f := s.f.(registering := Some(|s.regs|)), regs := s.regs + [Asking(s.f.portalOrigin.None?)], calls := s.calls + [Waiting(|s.regs|)])
  }

  predicate InFlight(s: System) { s.f.registering.Some? && s.f.registering.value < |s.regs| }

  function Current(s: System): Registration
    requires InFlight(s)
  {
    s.regs[s.f.registering.value]
  }

  function SetCurrent(s: System, r: Registration): System
    requires InFlight(s)
  {
    s.(regs := s.regs[s.f.registering.value := r])
  }

  /** The outcome of a registration: the pin's own entry, else the newest cached one, else the error. */
  function SettleRegistration(s: System, own: Option<Own>, newest: Option<CachedModule>, error: string): System
    requires InFlight(s)
  {
    if own.Some? then SetCurrent(s.(f := Adopt(s.f, EntryOf(s.f, own.value), own.value.hashes)), Adopted(EntryOf(s.f, own.value)))
    else if newest.Some? then SetCurrent(s.(f := Adopt(s.f, newest.value, None)), Adopted(newest.value))
    else SetCurrent(s, Rejected(error))
  }

  function Finish(s: System, result: Result<CachedModule, string>): System
    requires InFlight(s)
  {
    var t := SetCurrent(s, Done(result));
    t.(f := t.f.(registering := None))
  }

  function Resume(s: System, c: nat): System
    requires c < |s.calls| && s.calls[c].Waiting? && s.calls[c].reg < |s.regs| && s.regs[s.calls[c].reg].Done?
  {
    match s.regs[s.calls[c].reg].result
    case Ok(entry) =>
      var g := Remember(s.f, entry);
      s.(f := g, calls := s.calls[c := Answered(entry, g.served.value.document)])
    case Err(error) => s.(calls := s.calls[c := Failed(error)])
  }

  /** One step; an event that cannot happen in a state changes nothing. */
  function Step(s: System, e: Event): System {
    match e
    case GetMetadata(now) => CallGetMetadata(s, now)
    case RegistrationMeta(origin) =>
      if InFlight(s) && Current(s).Asking? then SetCurrent(s.(f := PinOrigin(s.f, Current(s).ask, origin)), Fetching) else s
    case RegistrationSettles(own, newest, error) =>
      if InFlight(s) && Current(s).Fetching? then SettleRegistration(s, own, newest, error) else s
    case RegistrationCaught(now) =>
      if InFlight(s) && Current(s).Rejected?
      then SetCurrent(s.(f := s.f.(lastFailure := Some(Failure(now, Current(s).error)))), Caught(Current(s).error)) else s
    case RegistrationFinally =>
      if InFlight(s) && Current(s).Adopted? then Finish(s, Ok(Current(s).entry))
      else if InFlight(s) && Current(s).Caught? then Finish(s, Err(Current(s).error))
      else s
    case Resumes(c) =>
      if c < |s.calls| && s.calls[c].Waiting? && s.calls[c].reg < |s.regs| && s.regs[s.calls[c].reg].Done? then Resume(s, c) else s
    case RefreshMeta(k, origin) =>
      if k < |s.refreshes| && s.refreshes[k].RefreshAsking?
      then s.(f := PinOrigin(s.f, s.refreshes[k].ask, origin),
              refreshes := s.refreshes[k := if s.refreshes[k].pinStale then RefreshFetching else Over])
      else s
    case RefreshSettles(k, own) =>
      if k < |s.refreshes| && s.refreshes[k].RefreshFetching?
      then s.(f := if own.Some? then Adopt(s.f, EntryOf(s.f, own.value), own.value.hashes) else s.f, refreshes := s.refreshes[k := Over])
      else s
  }

  function After(s: System, events: seq<Event>): System
    decreases |events|
  {
    if events == [] then s else After(Step(s, events[0]), events[1..])
  }

  // ----- the invariant -----

  /** Every registration but the current one is over, and the current one is not. */
  predicate OneInFlight(s: System) {
    (s.f.registering.Some? ==> s.f.registering.value < |s.regs| && !s.regs[s.f.registering.value].Done?)
    && forall r :: 0 <= r < |s.regs| && !s.regs[r].Done? ==> s.f.registering == Some(r)
  }

  /** Before the module registers nothing was adopted and nothing refreshes; after, no registration can still settle. */
  predicate RegistersOnce(s: System) {
    if s.f.registered.None?
    then s.f.registeredHashes.None? && s.f.served.None? && s.refreshes == []
         && forall r :: 0 <= r < |s.regs| ==> !s.regs[r].Adopted? && (s.regs[r].Done? ==> s.regs[r].result.Err?)
    else forall r :: 0 <= r < |s.regs| ==> s.regs[r].Adopted? || s.regs[r].Done?
  }

  /** Hashes are held for the configured pin's entry only. */
  predicate HashesOwn(f: Fields) { f.registeredHashes.Some? ==> HoldsPin(f) }

  /** The document an entry is served with now. */
  function DocumentNow(f: Fields, entry: CachedModule): Document {
    WithHashes(entry.document, if f.registered == Some(entry) then f.registeredHashes else None)
  }

  /** The memo is what would be built now. */
  predicate MemoSound(f: Fields) { f.served.Some? ==> f.served.value.document == DocumentNow(f, f.served.value.entry) }

  predicate WaitersKnown(s: System) { forall c :: 0 <= c < |s.calls| && s.calls[c].Waiting? ==> s.calls[c].reg < |s.regs| }

  predicate Inv(s: System) { OneInFlight(s) && RegistersOnce(s) && HashesOwn(s.f) && MemoSound(s.f) && WaitersKnown(s) }

  lemma RememberSound(f: Fields, entry: CachedModule)
    requires HashesOwn(f) && MemoSound(f)
    ensures HashesOwn(Remember(f, entry)) && MemoSound(Remember(f, entry))
    ensures Remember(f, entry).served.value.document == DocumentNow(f, entry)
  {
    hide WithHashes;
  }

  lemma CallKeepsInv(s: System, now: int)
    requires Inv(s)
    ensures Inv(CallGetMetadata(s, now))
  {
    hide WithHashes, WithinRefreshInterval;
    if s.f.registered.Some? { RememberSound(BeginRefresh(s, now).f, s.f.registered.value); }
  }

  lemma SettleKeepsInv(s: System, own: Option<Own>, newest: Option<CachedModule>, error: string)
    requires Inv(s) && InFlight(s) && Current(s).Fetching?
    ensures Inv(SettleRegistration(s, own, newest, error))
  {
    hide WithHashes;
  }

  lemma ResumeKeepsInv(s: System, c: nat)
    requires Inv(s) && c < |s.calls| && s.calls[c].Waiting? && s.regs[s.calls[c].reg].Done?
    ensures Inv(Resume(s, c))
  {
    hide WithHashes;
    match s.regs[s.calls[c].reg].result
    case Ok(entry) => RememberSound(s.f, entry);
    case Err(_) =>
  }

  /** Every step keeps the invariant. */
  lemma StepKeepsInv(s: System, e: Event)
    requires Inv(s)
    ensures Inv(Step(s, e))
  {
    hide WithHashes, CallGetMetadata, SettleRegistration, Resume;
    match e
    case GetMetadata(now) => CallKeepsInv(s, now);
    case RegistrationSettles(own, newest, error) =>
      if InFlight(s) && Current(s).Fetching? { SettleKeepsInv(s, own, newest, error); }
    case Resumes(c) =>
      if c < |s.calls| && s.calls[c].Waiting? && s.calls[c].reg < |s.regs| && s.regs[s.calls[c].reg].Done? { ResumeKeepsInv(s, c); }
    case _ =>
  }

  /** In every history of calls and refreshes: one registration at a time, hashes and memo sound. */
  lemma {:induction false} EveryHistory(pin: string, events: seq<Event>)
    ensures Inv(After(Initial(pin), events))
  {
    HistoryKeepsInv(Initial(pin), events);
  }

  lemma {:induction false} HistoryKeepsInv(s: System, events: seq<Event>)
    requires Inv(s)
    ensures Inv(After(s, events))
    decreases |events|
  {
    hide Inv, Step;
    if events != [] {
      StepKeepsInv(s, events[0]);
      HistoryKeepsInv(Step(s, events[0]), events[1..]);
    }
  }

  // ----- registered for good -----

  lemma StepKeepsRegistered(s: System, e: Event)
    requires Inv(s) && s.f.registered.Some?
    ensures Step(s, e).f.registered.Some? && Step(s, e).f.pin == s.f.pin
    ensures HoldsPin(s.f) ==> HoldsPin(Step(s, e).f)
  {
    hide WithHashes;
  }

  /** Once registered, a module stays registered; once it holds its configured pin, it keeps it. */
  lemma {:induction false} RegisteredForGood(s: System, events: seq<Event>)
    requires Inv(s) && s.f.registered.Some?
    ensures var t := After(s, events);
            Inv(t) && t.f.registered.Some? && t.f.pin == s.f.pin && (HoldsPin(s.f) ==> HoldsPin(t.f))
    decreases |events|
  {
    hide Inv, Step, HoldsPin;
    if events != [] {
      StepKeepsInv(s, events[0]);
      StepKeepsRegistered(s, events[0]);
      RegisteredForGood(Step(s, events[0]), events[1..]);
    }
  }

  /** A call begun once the module has registered is answered at once, from the registered entry; it never fails. */
  lemma AnsweredAtOnce(s: System, events: seq<Event>, now: int)
    requires Inv(s) && s.f.registered.Some?
    ensures var t := After(s, events); var u := Step(t, GetMetadata(now));
            t.f.registered.Some? && u.calls == t.calls + [Answered(t.f.registered.value, DocumentNow(t.f, t.f.registered.value))]
            && u.regs == t.regs && (HoldsPin(s.f) ==> t.f.registered.value.pin == s.f.pin)
  {
    hide Inv, WithHashes;
    RegisteredForGood(s, events);
    var t := After(s, events);
    assert HashesOwn(t.f) && MemoSound(t.f) by { InvParts(t); }
    RememberSound(BeginRefresh(t, now).f, t.f.registered.value);
  }

  lemma InvParts(s: System)
    requires Inv(s)
    ensures HashesOwn(s.f) && MemoSound(s.f) && OneInFlight(s) && RegistersOnce(s) && WaitersKnown(s)
  {
  }

  /** The step ends the call. */
  predicate Ends(s: System, e: Event, c: nat) {
    c < |Step(s, e).calls| && !Step(s, e).calls[c].Waiting? && (c < |s.calls| ==> s.calls[c].Waiting?)
  }

  /**
   * Whatever step answers a call, the document is the entry's with the hashes held for it at that
   * moment: its classes carry a hash only while it is the registered entry and the configured pin's.
   */
  lemma AnswersTrue(s: System, e: Event, c: nat)
    requires Inv(s) && Ends(s, e, c) && Step(s, e).calls[c].Answered?
    ensures var t := Step(s, e); var a := t.calls[c];
            a.document == DocumentNow(t.f, a.entry)
            && (t.f.registered == Some(a.entry) && t.f.registeredHashes.Some? ==> a.entry.pin == t.f.pin)
  {
    hide WithHashes, WithinRefreshInterval;
    match e
    case GetMetadata(now) =>
      if s.f.registered.Some? { RememberSound(BeginRefresh(s, now).f, s.f.registered.value); }
    case Resumes(k) =>
      if k == c { RememberSound(s.f, s.regs[s.calls[c].reg].result.value); }
    case _ =>
  }

  // ----- two promises, and the orders of steps that break them -----

  /** The call waits for a registration whose result is known. */
  predicate Resumable(s: System, c: nat) {
    c < |s.calls| && s.calls[c].Waiting? && s.calls[c].reg < |s.regs| && s.regs[s.calls[c].reg].Done?
  }

  /**
   * While the configured pin is held, the calls answered from another pin's entry are exactly those
   * resumed late: they waited for the registration that took that entry. They are given no hashes.
   */
  lemma OtherPinOnlyLate(s: System, e: Event, c: nat)
    requires Inv(s) && HoldsPin(s.f)
    ensures Ends(s, e, c) && Step(s, e).calls[c].Answered? && Step(s, e).calls[c].entry.pin != s.f.pin
       <==> e == Resumes(c) && Resumable(s, c) && s.regs[s.calls[c].reg].result.Ok? && s.regs[s.calls[c].reg].result.value.pin != s.f.pin
    ensures Ends(s, e, c) && Step(s, e).calls[c].Answered? && Step(s, e).calls[c].entry.pin != s.f.pin ==>
              Step(s, e).calls[c] == Answered(s.regs[s.calls[c].reg].result.value, WithHashes(s.regs[s.calls[c].reg].result.value.document, None))
  {
    hide WithHashes, WithinRefreshInterval;
    match e
    case Resumes(k) =>
      if k == c && Resumable(s, c) && s.regs[s.calls[c].reg].result.Ok? { RememberSound(s.f, s.regs[s.calls[c].reg].result.value); }
    case _ =>
  }

  /** Once the module has registered, the calls that fail are exactly those resumed late: their registration had failed. */
  lemma FailuresAreOld(s: System, e: Event, c: nat)
    requires Inv(s) && s.f.registered.Some?
    ensures Ends(s, e, c) && Step(s, e).calls[c].Failed?
       <==> e == Resumes(c) && Resumable(s, c) && s.regs[s.calls[c].reg].result.Err?
  {
    hide WithHashes, WithinRefreshInterval;
  }

  /** The outcome of a registration is known, though its handlers may still have to run. */
  predicate Settled(r: Registration) { !r.Asking? && !r.Fetching? }

  /** No call waits for an outcome that is known. */
  predicate AllResumed(s: System) {
    forall c :: 0 <= c < |s.calls| && s.calls[c].Waiting? && s.calls[c].reg < |s.regs| ==> !Settled(s.regs[s.calls[c].reg])
  }

  /** Nothing settles before the callers of what settled earlier have resumed. */
  predicate Prompt(s: System, events: seq<Event>)
    decreases |events|
  {
    events != [] ==>
      (events[0].RegistrationSettles? || events[0].RefreshSettles? ==> AllResumed(s)) && Prompt(Step(s, events[0]), events[1..])
  }

  /** What the waiting calls are about to be given. */
  predicate WaitersServed(s: System) {
    forall c :: 0 <= c < |s.calls| && s.calls[c].Waiting? && s.calls[c].reg < |s.regs| && s.f.registered.Some? ==>
      match s.regs[s.calls[c].reg]
      case Adopted(entry) => HoldsPin(s.f) ==> entry.pin == s.f.pin
      case Done(result) => result.Ok? && (HoldsPin(s.f) ==> result.value.pin == s.f.pin)
      case _ => false
  }

  lemma PromptStep(s: System, e: Event)
    requires Inv(s) && WaitersServed(s) && (e.RegistrationSettles? || e.RefreshSettles? ==> AllResumed(s))
    ensures WaitersServed(Step(s, e))
  {
    hide WithHashes, WithinRefreshInterval, MemoSound;
  }

  lemma {:induction false} PromptKeeps(s: System, events: seq<Event>)
    requires Inv(s) && WaitersServed(s) && Prompt(s, events)
    ensures Inv(After(s, events)) && WaitersServed(After(s, events))
    decreases |events|
  {
    hide Inv, Step, WaitersServed, AllResumed;
    if events != [] {
      StepKeepsInv(s, events[0]);
      PromptStep(s, events[0]);
      PromptKeeps(Step(s, events[0]), events[1..]);
    }
  }

  /**
   * In every prompt history a module that has registered fails no call, and one that holds its
   * configured pin answers every call from an entry at that pin.
   */
  lemma PromptHistory(pin: string, events: seq<Event>, e: Event, c: nat)
    requires Prompt(Initial(pin), events) && Ends(After(Initial(pin), events), e, c)
    ensures var s := After(Initial(pin), events);
            (s.f.registered.Some? ==> Step(s, e).calls[c].Answered?)
            && (HoldsPin(s.f) ==> Step(s, e).calls[c].entry.pin == s.f.pin)
  {
    hide Inv, Step, WaitersServed, Prompt;
    PromptStarts(pin);
    PromptKeeps(Initial(pin), events);
    if After(Initial(pin), events).f.registered.Some? { PromptAnswer(After(Initial(pin), events), e, c); }
  }

  lemma PromptStarts(pin: string)
    ensures Inv(Initial(pin)) && WaitersServed(Initial(pin))
  {
  }

  lemma PromptAnswer(s: System, e: Event, c: nat)
    requires Inv(s) && WaitersServed(s) && Ends(s, e, c) && s.f.registered.Some?
    ensures Step(s, e).calls[c].Answered? && (HoldsPin(s.f) ==> Step(s, e).calls[c].entry.pin == s.f.pin)
  {
    hide WithHashes, WithinRefreshInterval;
    FailuresAreOld(s, e, c);
    if HoldsPin(s.f) { OtherPinOnlyLate(s, e, c); }
  }

  /**
   * A history that is not prompt answers from the other pin: a second caller starts a refresh, and it
   * settles after the first caller's registration but before the first caller is resumed.
   */
  lemma LateAnswer(pin: string, other: CachedModule, own: Own) returns (events: seq<Event>)
    requires other.pin != pin
    ensures var s := After(Initial(pin), events);
            HoldsPin(s.f) && Ends(s, Resumes(0), 0)
            && Step(s, Resumes(0)).calls[0] == Answered(other, WithHashes(other.document, None))
  {
    hide WithHashes, Step;
    var first := [GetMetadata(0), RegistrationMeta(None), RegistrationSettles(None, Some(other), ""), RegistrationFinally];
    var second := [GetMetadata(1), RefreshMeta(0, None), RefreshSettles(0, Some(own))];
    events := first + second;
    LateRegistration(pin, other);
    LateRefresh(pin, other, own);
    AfterFour(Initial(pin), first[0], first[1], first[2], first[3]);
    AfterThree(Registered(pin, other), second[0], second[1], second[2]);
    AfterJoin(Initial(pin), first, second);
  }

  /** Where a registration from another pin leaves the system, its caller not resumed yet. */
  function Registered(pin: string, other: CachedModule): System {
    System(Fields(pin, Some(other), None, None, None, None, None, None), [Done(Ok(other))], [], [Waiting(0)])
  }

  lemma LateRegistration(pin: string, other: CachedModule)
    ensures var s2 := Step(Step(Initial(pin), GetMetadata(0)), RegistrationMeta(None));
            Step(Step(s2, RegistrationSettles(None, Some(other), "")), RegistrationFinally) == Registered(pin, other)
  {
    hide WithHashes;
    var s1 := Step(Initial(pin), GetMetadata(0));
    assert s1.regs == [Asking(true)] && s1.calls == [Waiting(0)];
    var s2 := Step(s1, RegistrationMeta(None));
    assert s2 == s1.(regs := [Fetching]);
    var s3 := Step(s2, RegistrationSettles(None, Some(other), ""));
    assert s3.regs == [Adopted(other)];
  }

  lemma LateRefresh(pin: string, other: CachedModule, own: Own)
    requires other.pin != pin
    ensures var s6 := Step(Step(Registered(pin, other), GetMetadata(1)), RefreshMeta(0, None));
            var s7 := Step(s6, RefreshSettles(0, Some(own)));
            HoldsPin(s7.f) && Ends(s7, Resumes(0), 0)
            && Step(s7, Resumes(0)).calls[0] == Answered(other, WithHashes(other.document, None))
  {
    hide WithHashes;
    var s5 := Step(Registered(pin, other), GetMetadata(1));
    assert s5.refreshes == [RefreshAsking(true, true)] && |s5.calls| == 2 && s5.calls[0] == Waiting(0);
    var s6 := Step(s5, RefreshMeta(0, None));
    assert s6.refreshes == [RefreshFetching] && s6.f.pin == pin;
    var s7 := Step(s6, RefreshSettles(0, Some(own)));
    assert s7.f.registered == Some(EntryOf(s6.f, own)) && s7.f.served == None;
  }

  /**
   * A history that is not prompt fails a call of a registered module: its registration failed, and a
   * second caller's, begun a minute later, settles before the first caller is resumed.
   */
  lemma LateFailure(pin: string, own: Own, error: string) returns (events: seq<Event>)
    ensures var s := After(Initial(pin), events);
            HoldsPin(s.f) && Ends(s, Resumes(0), 0) && Step(s, Resumes(0)).calls[0] == Failed(error)
  {
    hide WithHashes, Step;
    var first := [GetMetadata(0), RegistrationMeta(None), RegistrationSettles(None, None, error), RegistrationCaught(0)];
    var second := [RegistrationFinally, GetMetadata(REFRESH_INTERVAL_MS), RegistrationMeta(None), RegistrationSettles(Some(own), None, "")];
    events := first + second;
    FailedRegistration(pin, error);
    SecondRegistration(pin, own, error);
    AfterFour(Initial(pin), first[0], first[1], first[2], first[3]);
    AfterFour(NotRegistered(pin, error), second[0], second[1], second[2], second[3]);
    AfterJoin(Initial(pin), first, second);
  }

  /** Where a failed registration leaves the system, its caller not resumed yet. */
  function NotRegistered(pin: string, error: string): System {
    System(Fields(pin, None, None, None, Some(0), Some(Failure(0, error)), None, None), [Caught(error)], [], [Waiting(0)])
  }

  lemma FailedRegistration(pin: string, error: string)
    ensures var s2 := Step(Step(Initial(pin), GetMetadata(0)), RegistrationMeta(None));
            Step(Step(s2, RegistrationSettles(None, None, error)), RegistrationCaught(0)) == NotRegistered(pin, error)
  {
    hide WithHashes;
    var s1 := Step(Initial(pin), GetMetadata(0));
    assert s1.regs == [Asking(true)] && s1.calls == [Waiting(0)];
    var s2 := Step(s1, RegistrationMeta(None));
    assert s2 == s1.(regs := [Fetching]);
    var s3 := Step(s2, RegistrationSettles(None, None, error));
    assert s3.regs == [Rejected(error)];
  }

  lemma SecondRegistration(pin: string, own: Own, error: string)
    ensures var s6 := Step(Step(NotRegistered(pin, error), RegistrationFinally), GetMetadata(REFRESH_INTERVAL_MS));
            var s8 := Step(Step(s6, RegistrationMeta(None)), RegistrationSettles(Some(own), None, ""));
            HoldsPin(s8.f) && Ends(s8, Resumes(0), 0) && Step(s8, Resumes(0)).calls[0] == Failed(error)
  {
    hide WithHashes;
    var s5 := Step(NotRegistered(pin, error), RegistrationFinally);
    assert s5.regs == [Done(Err(error))] && s5.f.registering == None;
    var s6 := Step(s5, GetMetadata(REFRESH_INTERVAL_MS));
    assert s6.regs == [Done(Err(error)), Asking(true)] && s6.calls == [Waiting(0), Waiting(1)];
    var s7 := Step(s6, RegistrationMeta(None));
    assert s7.regs == [Done(Err(error)), Fetching] && s7.f.registering == Some(1);
    var s8 := Step(s7, RegistrationSettles(Some(own), None, ""));
    assert s8.regs[0] == Done(Err(error)) && s8.calls == s6.calls;
  }

  lemma AfterThree(s: System, a: Event, b: Event, c: Event)
    ensures After(s, [a, b, c]) == Step(Step(Step(s, a), b), c)
  {
    hide Step;
    assert [a, b, c][1..] == [b, c] && [b, c][1..] == [c] && [c][1..] == [];
    assert After(Step(Step(s, a), b), [c]) == Step(Step(Step(s, a), b), c);
  }

  lemma AfterFour(s: System, a: Event, b: Event, c: Event, d: Event)
    ensures After(s, [a, b, c, d]) == Step(Step(Step(Step(s, a), b), c), d)
  {
    hide Step;
    assert [a, b, c, d][1..] == [b, c, d];
    AfterThree(Step(s, a), b, c, d);
  }

  lemma {:induction false} AfterJoin(s: System, a: seq<Event>, b: seq<Event>)
    ensures After(s, a + b) == After(After(s, a), b)
    decreases |a|
  {
    hide Step;
    if a == [] {
      assert a + b == b;
    } else {
      assert (a + b)[1..] == a[1..] + b;
      AfterJoin(Step(s, a[0]), a[1..], b);
    }
  }

  // ----- the hashes reported -----

  lemma HashesAt(d: Document, hashes: Option<Hashes>, key: string, k: nat)
    requires key in d.arrays && key in ALL_CLASS_ARRAYS && k < |d.arrays[key]| && d.arrays[key][k].ClassEntry?
    ensures var out := WithHashes(d, hashes); var item := d.arrays[key][k];
            |out.arrays[key]| == |d.arrays[key]| && out.arrays[key][k] == item.(policyHash := ServedHash(item, key in SERVED_CLASS_ARRAYS, hashes))
  {
  }

  /** What getPolicyHash answers for a class, but for an empty hash, which is not reported. */
  function HashOf(f: Fields, id: Option<string>): Option<string> {
    if id.Some? && PolicyHash(f, id.value) != Some("") then PolicyHash(f, id.value) else None
  }

  /**
   * In every history: the document a call is answered with is its entry's but for the policy hashes.
   * A class of a served array reports the hash getPolicyHash answers for it at that moment, if the
   * entry is still the registered one; no other class reports any, whatever the document carried.
   */
  lemma ReportsExactly(pin: string, events: seq<Event>, e: Event, c: nat, key: string, k: nat)
    requires Ends(After(Initial(pin), events), e, c) && Step(After(Initial(pin), events), e).calls[c].Answered?
    requires var a := Step(After(Initial(pin), events), e).calls[c];
             key in a.entry.document.arrays && k < |a.entry.document.arrays[key]|
    ensures var t := Step(After(Initial(pin), events), e); var a := t.calls[c]; var item := a.entry.document.arrays[key][k];
            a.document.other == a.entry.document.other && a.document.arrays.Keys == a.entry.document.arrays.Keys
            && |a.document.arrays[key]| == |a.entry.document.arrays[key]|
            && a.document.arrays[key][k]
               == if item.NotObject? || key !in ALL_CLASS_ARRAYS then item
                  else item.(policyHash := if key in SERVED_CLASS_ARRAYS && t.f.registered == Some(a.entry) then HashOf(t.f, item.id) else None)
  {
    hide Step, Inv, ALL_CLASS_ARRAYS, SERVED_CLASS_ARRAYS;
    EveryHistory(pin, events);
    var s := After(Initial(pin), events);
    var t := Step(s, e);
    AnswersTrue(s, e, c);
    StepKeepsInv(s, e);
    InvParts(t);
    ReportedNow(t.f, t.calls[c].entry, key, k);
  }

  lemma ReportedNow(f: Fields, entry: CachedModule, key: string, k: nat)
    requires HashesOwn(f) && key in entry.document.arrays && k < |entry.document.arrays[key]|
    ensures var d := DocumentNow(f, entry); var item := entry.document.arrays[key][k];
            d.other == entry.document.other && d.arrays.Keys == entry.document.arrays.Keys
            && |d.arrays[key]| == |entry.document.arrays[key]|
            && d.arrays[key][k]
               == if item.NotObject? || key !in ALL_CLASS_ARRAYS then item
                  else item.(policyHash := if key in SERVED_CLASS_ARRAYS && f.registered == Some(entry) then HashOf(f, item.id) else None)
  {
    hide ALL_CLASS_ARRAYS, SERVED_CLASS_ARRAYS;
  }

  /** The metadata and getPolicyHash agree, in every state: what a served class carries is what is answered for its id. */
  lemma MetadataAgrees(s: System, key: string, k: nat)
    requires Inv(s) && s.f.registered.Some? && key in SERVED_CLASS_ARRAYS && key in s.f.registered.value.document.arrays
    requires k < |s.f.registered.value.document.arrays[key]| && s.f.registered.value.document.arrays[key][k].ClassEntry?
    requires forall h :: s.f.registeredHashes.Some? && h in s.f.registeredHashes.value ==> s.f.registeredHashes.value[h] != ""
    ensures var d := s.f.registered.value.document; var out := DocumentNow(s.f, s.f.registered.value); var item := d.arrays[key][k];
            key in out.arrays && k < |out.arrays[key]| && out.arrays[key][k].ClassEntry?
            && out.arrays[key][k].policyHash == (if item.id.Some? then PolicyHash(s.f, item.id.value) else None)
  {
    hide OneInFlight, RegistersOnce, WaitersKnown, MemoSound;
    assert key in ALL_CLASS_ARRAYS;
    HashesAt(s.f.registered.value.document, s.f.registeredHashes, key, k);
  }

  // ----- the module as an object -----

  class DtRemoteModule {
    const pin: string
    var registered: Option<CachedModule>
    var registeredHashes: Option<Hashes>
    var served: Option<Served>
    var registering: Option<nat>
    var lastFailure: Option<Failure>
    var lastRefreshAt: Option<int>
    var portalOrigin: Option<string>

    function View(): Fields
      reads this
    {
      Fields(pin, registered, registeredHashes, served, registering, lastFailure, lastRefreshAt, portalOrigin)
    }

    constructor (pin: string)
      ensures View() == Initial(pin).f
    {
      this.pin := pin;
      registered, registeredHashes, served, registering := None, None, None, None;
      lastFailure, lastRefreshAt, portalOrigin := None, None, None;
    }

    method AdoptEntry(entry: CachedModule, hashes: Option<Hashes>)
      modifies this
      ensures View() == Adopt(old(View()), entry, hashes)
    {
      registered := Some(entry);
      registeredHashes := if entry.pin == pin then hashes else None;
      served := None;
    }

    method ServedMetadata(entry: CachedModule) returns (document: Document)
      modifies this
      ensures View() == Remember(old(View()), entry) && document == View().served.value.document
    {
      hide WithHashes;
      if served.None? || served.value.entry != entry {
        var hashes := if registered == Some(entry) && entry.pin == pin then registeredHashes else None;
        var copy := WithPolicyHashes(entry.document, hashes);
        served := Some(Served(entry, copy));
      }
      return served.value.document;
    }

    /** refreshInBackground up to its first await; `ask` and `pinStale` are what the rest of it goes by. */
    method RefreshInBackground(current: CachedModule, now: int) returns (started: bool, ask: bool, pinStale: bool)
      requires registered == Some(current)
      modifies this
      ensures started <==> RefreshStarts(old(View()), now)
      ensures View() == if started then old(View()).(lastRefreshAt := Some(now)) else old(View())
      ensures ask == old(portalOrigin).None? && pinStale == !HoldsPin(old(View()))
    {
      pinStale := current.pin != pin;
      ask := portalOrigin.None?;
      if !pinStale && portalOrigin.Some? { return false, ask, pinStale; }
      if lastRefreshAt.Some? && WithinRefreshInterval(lastRefreshAt.value, now) { return false, ask, pinStale; }
      lastRefreshAt := Some(now);
      return true, ask, pinStale;
    }

    /** getMetadata up to its await. `next` numbers a registration it would start. */
    method BeginGetMetadata(ghost s: System, now: int, next: nat) returns (outcome: Option<Call>, refreshing: bool)
      requires View() == s.f && next == |s.regs|
      modifies this
      ensures View() == CallGetMetadata(s, now).f
      ensures outcome == Some(CallGetMetadata(s, now).calls[|s.calls|])
      ensures refreshing <==> |CallGetMetadata(s, now).refreshes| > |s.refreshes|
    {
      hide WithHashes;
      refreshing := false;
      if registered.Some? {
        var entry := registered.value;
        var started, _, _ := RefreshInBackground(entry, now);
        var document := ServedMetadata(entry);
        return Some(Answered(entry, document)), started;
      }
      if lastFailure.Some? && WithinRefreshInterval(lastFailure.value.at, now) {
        return Some(Failed(lastFailure.value.error)), false;
      }
      if registering.None? {
        registering := Some(next);
      }
      return Some(Waiting(registering.value)), false;
    }

    /** The rest of register, once the pin's entry is there or not: its entry, or the error it throws. */
    method SettleRegister(own: Option<Own>, newest: Option<CachedModule>, error: string,
            ghost s: System) returns (r: Result<CachedModule, string>)
      requires View() == s.f && InFlight(s)
      modifies this
      ensures var t := SettleRegistration(s, own, newest, error);
              View() == t.f && t.regs[s.f.registering.value] == match r case Ok(entry) => Adopted(entry) case Err(e) => Rejected(e)
    {
      if own.Some? {
        var entry := EntryOf(View(), own.value);
        AdoptEntry(entry, own.value.hashes);
        return Ok(entry);
      }
      if newest.Some? {
        AdoptEntry(newest.value, None);
        return Ok(newest.value);
      }
      return Err(error);
    }

    /** pinPortalOrigin after its await, where it asked: what /meta answered. */
    method PinPortalOrigin(ask: bool, origin: Option<string>)
      modifies this
      ensures View() == PinOrigin(old(View()), ask, origin)
    {
      if ask && origin.Some? && origin.value != "" {
        portalOrigin := origin;
      }
    }

    /** The catch and finally handlers of a registration. */
    method NoteFailure(error: string, now: int)
      modifies this
      ensures View() == old(View()).(lastFailure := Some(Failure(now, error)))
    {
      lastFailure := Some(Failure(now, error));
    }

    method ClearRegistering()
      modifies this
      ensures View() == old(View()).(registering := None)
    {
      registering := None;
    }

    /** A background refresh once the pin's entry is there or not: it replaces the registered one, or nothing happens. */
    method SettleRefresh(ghost s: System, refresh: nat, own: Option<Own>)
      requires View() == s.f && refresh < |s.refreshes| && s.refreshes[refresh].RefreshFetching?
      modifies this
      ensures View() == Step(s, RefreshSettles(refresh, own)).f
    {
      if own.Some? {
        AdoptEntry(EntryOf(View(), own.value), own.value.hashes);
      }
    }

    /** The rest of getMetadata, once the registration it waited for has its result. */
    method ResumeGetMetadata(ghost s: System, c: nat, result: Result<CachedModule, string>) returns (outcome: Call)
      requires View() == s.f && Resumable(s, c) && s.regs[s.calls[c].reg].result == result
      modifies this
      ensures var t := Step(s, Resumes(c)); View() == t.f && outcome == t.calls[c]
    {
      hide WithHashes;
      match result {
        case Ok(entry) =>
          var document := ServedMetadata(entry);
          return Answered(entry, document);
        case Err(error) =>
          return Failed(error);
      }
    }

    method GetPolicyHash(classId: string) returns (h: Option<string>)
      ensures h == PolicyHash(View(), classId)
    {
      if registered.None? || registered.value.pin != pin || registeredHashes.None? { return None; }
      return if classId in registeredHashes.value then Some(registeredHashes.value[classId]) else None;
    }
  }
}

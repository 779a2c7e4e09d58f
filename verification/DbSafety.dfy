/** The guard rails of command-line scripts: safety classes, production confirmation and runtime escalation. */
module DbSafety {
  import opened Outcomes
  import opened Text

  datatype Level = A | B | C | D

  function Rank(l: Level): nat {
    match l case A => 0 case B => 1 case C => 2 case D => 3
  }

  datatype Context = Context(script: string, nominal: Level, effective: Level, allow: bool, authorized: bool)

  datatype LogEntry = LogEntry(script: string, url: string)

  /** One process: the guard context, DATABASE_URL, and the log of confirmed operations. An empty URL is an unset
      one. */
  datatype State = State(ctx: Option<Context>, url: string, log: seq<LogEntry>)

  /** What does not change in a run: DATABASE_URL_PRODUCTION, and which URLs have a production host. */
  datatype Env = Env(productionUrl: string, hasProductionHost: string -> bool)

  predicate IsProduction(env: Env, url: string) {
    url != "" && env.hasProductionHost(url)
  }

  const PHRASE := "I UNDERSTAND THIS WILL MODIFY PRODUCTION"

  /** What the operator types; None without a real terminal, with a patched input, or at end of file. */
  type Answer = Option<string>

  predicate Confirmed(typed: Answer) {
    typed.Some? && Strip(typed.value) == PHRASE
  }

  /** SystemExit ends the run; a RuntimeError, raised when the wanted URL is not set, may be caught. */
  datatype Outcome = Returned(url: string) | Done | Exited | UrlNotSet

  datatype Step = Step(state: State, outcome: Outcome)

  /** `apply_script_database_url`. */
  function ApplyUrl(env: Env, s: State, production: bool): Step {
    var url := if production then env.productionUrl else s.url;
    if url == "" then Step(s, UrlNotSet) else Step(s.(url := url), Returned(url))
  }

  /** `_authorize_class_d`. */
  function Authorize(env: Env, s: State, script: string, allow: bool, typed: Answer): Step {
    if s.url == "" then Step(s, UrlNotSet)
    else if IsProduction(env, s.url) && !allow then Step(s, Exited)
    else if !allow then ApplyUrl(env, s, false)
    else
      var applied := ApplyUrl(env, s, true);
      if !applied.outcome.Returned? then applied
      else if !IsProduction(env, applied.outcome.url) || !Confirmed(typed) then Step(applied.state, Exited)
      else Step(applied.state.(log := s.log + [LogEntry(script, applied.outcome.url)]), applied.outcome)
  }

  function MarkAuthorized(step: Step): Step {
    if step.outcome.Returned? && step.state.ctx.Some? then
      step.(state := step.state.(ctx := Some(step.state.ctx.value.(authorized := true, effective := D))))
    else step
  }

  /** Classes B and C without production rights: DATABASE_URL as it is, unless that is production. */
  function BeginLocal(env: Env, s: State, allow: bool): Step {
    var applied := ApplyUrl(env, s, false);
    if applied.outcome.Returned? && IsProduction(env, applied.outcome.url) && !allow then Step(applied.state, Exited)
        else applied
  }

  function Begin(env: Env, s0: State, level: Level, script: string, allow: bool, useProduction: bool,
                 typed: Answer): Step {
    var s := s0.(ctx := Some(Context(script, level, level, allow, false)));
    match level
    case A => ApplyUrl(env, s, useProduction)
    case B => BeginLocal(env, s, allow)
    case C => if allow then Authorize(env, s, script, true, typed) else BeginLocal(env, s, false)
    case D => MarkAuthorized(Authorize(env, s, script, allow, typed))
  }

  function Require(env: Env, s: State, typed: Answer): Step {
    match s.ctx
    case None => Step(s, Done)
    case Some(c) =>
      if c.authorized then Step(s, Done)
      else
        var step := MarkAuthorized(Authorize(env, s.(ctx := Some(c.(effective := D))), c.script, c.allow, typed));
        if step.outcome.Returned? then step.(outcome := Done) else step
  }

  /** The context a destructive guard works in: a new one, or the existing one with the rights it brings. */
  function Opened(s: State, script: string, allow: bool): State {
    match s.ctx
    case None => s.(ctx := Some(Context(script, D, D, allow, false)))
    case Some(c) => if allow then s.(ctx := Some(c.(allow := true))) else s
  }

  function Destructive(env: Env, s: State, script: string, allow: bool, typed: Answer): Step {
    MarkAuthorized(Authorize(env, Opened(s, script, allow), script, allow, typed))
  }

  // ---------------------------------------------------------------- the guards themselves

  class Guard {
    var ctx: Option<Context>
    var url: string
    var log: seq<LogEntry>
    const env: Env

    constructor (env: Env, url: string)
      ensures Now() == State(None, url, []) && this.env == env
    {
      ctx, this.url, log, this.env := None, url, [], env;
    }

    function Now(): State
      reads this
    {
      State(ctx, url, log)
    }

    method ApplyScriptDatabaseUrl(production: bool) returns (o: Outcome)
      modifies this`url
      ensures Step(Now(), o) == ApplyUrl(env, old(Now()), production)
    {
      var wanted := if production then env.productionUrl else url;
      if wanted == "" { return UrlNotSet; }
      url := wanted;
      o := Returned(wanted);
    }

    method AuthorizeClassD(script: string, allow: bool, typed: Answer) returns (o: Outcome)
      modifies this`url, this`log
      ensures Step(Now(), o) == Authorize(env, old(Now()), script, allow, typed)
    {
      if url == "" { return UrlNotSet; }
      if IsProduction(env, url) && !allow { return Exited; }
      if allow {
        o := ApplyScriptDatabaseUrl(true);
        if !o.Returned? { return; }
        if !IsProduction(env, o.url) { return Exited; }
        if !Confirmed(typed) { return Exited; }
        log := log + [LogEntry(script, o.url)];
        return;
      }
      o := ApplyScriptDatabaseUrl(false);
    }

    method BeginScriptGuard(level: Level, script: string, allow: bool, useProduction: bool, typed: Answer)
      returns (o: Outcome)
      modifies this
      ensures Step(Now(), o) == Begin(env, old(Now()), level, script, allow, useProduction, typed)
    {
      hide IsProduction, Confirmed;
      ctx := Some(Context(script, level, level, allow, false));
      if level == A {
        o := ApplyScriptDatabaseUrl(useProduction);
        return;
      }
      if level == B || (level == C && !allow) {
        o := ApplyScriptDatabaseUrl(false);
        if o.Returned? && IsProduction(env, o.url) && !allow { return Exited; }
        return;
      }
      o := AuthorizeClassD(script, allow, typed);
      if level == D && o.Returned? {
        ctx := Some(ctx.value.(effective := D, authorized := true));
      }
    }

    method RequireRuntimeClassD(typed: Answer) returns (o: Outcome)
      modifies this
      ensures Step(Now(), o) == Require(env, old(Now()), typed)
    {
      hide IsProduction, Confirmed;
      if ctx.None? { return Done; }
      if ctx.value.authorized { return Done; }
      ctx := Some(ctx.value.(effective := D));
      o := AuthorizeClassD(ctx.value.script, ctx.value.allow, typed);
      if o.Returned? {
        ctx := Some(ctx.value.(authorized := true, effective := D));
        o := Done;
      }
    }

    method GuardDestructiveDb(script: string, allow: bool, typed: Answer) returns (o: Outcome)
      modifies this
      ensures Step(Now(), o) == Destructive(env, old(Now()), script, allow, typed)
    {
      hide IsProduction, Confirmed;
      if ctx.None? {
        ctx := Some(Context(script, D, D, allow, false));
      } else if allow {
        ctx := Some(ctx.value.(allow := true));
      }
      o := AuthorizeClassD(script, allow, typed);
      if o.Returned? {
        ctx := Some(ctx.value.(authorized := true, effective := D));
      }
    }
  }

  // ---------------------------------------------------------------- runs

  datatype Call =
    | BeginCall(level: Level, script: string, allow: bool, useProduction: bool, typed: Answer)
    | RequireCall(typed: Answer)
    | DestructiveCall(script: string, allow: bool, typed: Answer)

  function Apply(env: Env, s: State, call: Call): Step {
    match call
    case BeginCall(level, script, allow, useProduction, typed) =>
        Begin(env, s, level, script, allow, useProduction, typed)
    case RequireCall(typed) => Require(env, s, typed)
    case DestructiveCall(script, allow, typed) => Destructive(env, s, script, allow, typed)
  }

  /** The steps of a run, up to and including the one that exits. */
  function Run(env: Env, s: State, calls: seq<Call>): Step {
    if |calls| == 0 then Step(s, Done)
    else
      var before := Run(env, s, calls[..|calls| - 1]);
      if before.outcome.Exited? then before else Apply(env, before.state, calls[|calls| - 1])
  }

  predicate LoggedFor(s: State, url: string) {
    exists e | e in s.log :: e.url == url
  }

  /** Class D rights on a production URL were confirmed for that URL, and no class falls below its nominal one. */
  predicate Inv(env: Env, s: State) {
    s.ctx.Some? ==>
      && Rank(s.ctx.value.effective) >= Rank(s.ctx.value.nominal)
      && (s.ctx.value.authorized ==>
            s.ctx.value.effective == D && (IsProduction(env, s.url) ==> LoggedFor(s, s.url)))
  }

  /** An authorisation that returns gives a local URL, or a production URL it has just confirmed and logged. */
  lemma AuthorizedUrl(env: Env, s: State, script: string, allow: bool, typed: Answer)
    ensures var step := Authorize(env, s, script, allow, typed);
            && step.state.ctx == s.ctx && step.outcome != Done
            && (step.outcome.UrlNotSet? ==> step.state == s)
            && (step.outcome.Returned? ==>
                  && step.outcome.url == step.state.url
                  && (IsProduction(env, step.outcome.url) <==> allow)
                  && (allow ==> Confirmed(typed) && step.state.log == s.log + [LogEntry(script, step.state.url)])
                  && (!allow ==> step.state.log == s.log))
  {
  }

  /** The same for the authorisation inside a call. */
  lemma AuthorizedCall(env: Env, s: State, call: Call)
    ensures (&& Apply(env, s, call).outcome.Returned?
             && (call.DestructiveCall? || (call.BeginCall? && Rank(call.level) >= Rank(C)))) ==>
              var step := Apply(env, s, call);
              && step.outcome.url == step.state.url
              && (IsProduction(env, step.outcome.url) <==> call.allow)
              && (call.allow ==>
                    Confirmed(call.typed) && step.state.log == s.log + [LogEntry(call.script, step.outcome.url)])
              && (!call.allow ==> step.state.log == s.log)
    ensures call.RequireCall? && Apply(env, s, call).outcome.Done? && s.ctx.Some? && !s.ctx.value.authorized ==>
              var t := Apply(env, s, call).state;
              && (IsProduction(env, t.url) ==>
                  Confirmed(call.typed) && t.log == s.log + [LogEntry(s.ctx.value.script, t.url)])
              && (!IsProduction(env, t.url) ==> t.log == s.log)
  {
    hide Confirmed, IsProduction, Authorize;
    match call
    case BeginCall(level, script, allow, _, typed) =>
      AuthorizedUrl(env, s.(ctx := Some(Context(script, level, level, allow, false))), script, allow, typed);
      LocalUrl(env, s.(ctx := Some(Context(script, level, level, allow, false))), allow);
    case RequireCall(typed) =>
      if s.ctx.Some? {
        AuthorizedUrl(env, s.(ctx := Some(s.ctx.value.(effective := D))), s.ctx.value.script, s.ctx.value.allow, typed);
      }
    case DestructiveCall(script, allow, typed) => AuthorizedUrl(env, Opened(s, script, allow), script, allow, typed);
  }

  lemma LocalUrl(env: Env, s: State, allow: bool)
    ensures var step := BeginLocal(env, s, allow);
            step.outcome.Returned? ==>
              step.outcome.url == step.state.url && step.state == s && (IsProduction(env, step.outcome.url) ==> allow)
  {
  }

  lemma LogGrowsToHold(s: State, e: LogEntry, t: State)
    requires t.log == s.log + [e]
    ensures LoggedFor(t, e.url) && forall u | LoggedFor(s, u) :: LoggedFor(t, u)
  {
    assert e in t.log;
    forall u | LoggedFor(s, u)
      ensures LoggedFor(t, u)
    {
      var x :| x in s.log && x.url == u;
      assert x in t.log;
    }
  }

  lemma CallKeepsInv(env: Env, s: State, call: Call)
    requires Inv(env, s) && !Apply(env, s, call).outcome.Exited?
    ensures Inv(env, Apply(env, s, call).state)
  {
    hide Confirmed;
    AuthorizedCall(env, s, call);
    var step := Apply(env, s, call);
    if |step.state.log| > |s.log| {
      LogGrowsToHold(s, step.state.log[|s.log|], step.state);
    }
  }

  /** Over every run of guard calls that has not exited. */
  lemma {:induction false} RunKeepsInv(env: Env, s: State, calls: seq<Call>)
    requires Inv(env, s) && !Run(env, s, calls).outcome.Exited?
    ensures Inv(env, Run(env, s, calls).state)
  {
    hide Inv, Apply;
    if |calls| > 0 {
      RunKeepsInv(env, s, calls[..|calls| - 1]);
      CallKeepsInv(env, Run(env, s, calls[..|calls| - 1]).state, calls[|calls| - 1]);
    }
  }

  /** A call logs nothing, or one operation on the production URL that was confirmed in that call. */
  lemma LogsOnlyConfirmed(env: Env, s: State, call: Call)
    ensures var t := Apply(env, s, call).state;
            t.log == s.log ||
            (Confirmed(call.typed) && |t.log| == |s.log| + 1 && s.log <= t.log &&
             t.log[|s.log|].url == env.productionUrl && IsProduction(env, env.productionUrl))
  {
    hide Confirmed;
  }

  /** Every logged operation, in every run, was on the production URL. */
  lemma {:induction false} LogHoldsProductionOnly(env: Env, s: State, calls: seq<Call>)
    ensures var t := Run(env, s, calls).state;
            s.log <= t.log && forall i | |s.log| <= i < |t.log| ::
                t.log[i].url == env.productionUrl && IsProduction(env, t.log[i].url)
  {
    hide Apply;
    if |calls| > 0 {
      LogHoldsProductionOnly(env, s, calls[..|calls| - 1]);
      LogsOnlyConfirmed(env, Run(env, s, calls[..|calls| - 1]).state, calls[|calls| - 1]);
    }
  }

  /** A class C or D guard that returns a production URL has asked for it and logged it in that very call. */
  lemma GuardedReturnIsConfirmed(env: Env, s: State, call: Call)
    requires Apply(env, s, call).outcome.Returned?
    requires call.DestructiveCall? || (call.BeginCall? && Rank(call.level) >= Rank(C))
    ensures var step := Apply(env, s, call);
            && step.state.url == step.outcome.url
            && (IsProduction(env, step.outcome.url) <==> call.allow)
            && (call.allow ==>
                  Confirmed(call.typed) && step.state.log == s.log + [LogEntry(call.script, step.outcome.url)])
            && (!call.allow ==> step.state.log == s.log)
  {
    hide Apply;
    AuthorizedCall(env, s, call);
  }

  /** Class B never asks: with the flag it returns whatever DATABASE_URL holds, production included. */
  lemma ClassBReturnsIff(env: Env, s: State, script: string, allow: bool, useProduction: bool, typed: Answer)
    ensures var step := Begin(env, s, B, script, allow, useProduction, typed);
            && (step.outcome.Returned? <==> s.url != "" && (IsProduction(env, s.url) ==> allow))
            && step.state.log == s.log
            && (step.outcome.Returned? ==> step.outcome.url == s.url)
  {
  }

  /** After one successful escalation, further ones under the same context pass unasked, whatever would be typed. */
  lemma {:induction false} NotAskedAgain(env: Env, s: State, first: Answer, later: seq<Call>)
    requires s.ctx.Some? && Require(env, s, first).outcome.Done? && forall c | c in later :: c.RequireCall?
    ensures Run(env, Require(env, s, first).state, later) == Step(Require(env, s, first).state, Done)
    ensures Require(env, s, first).state.ctx.value.authorized
  {
    hide Confirmed, IsProduction;
    if |later| > 0 {
      assert later[|later| - 1] in later;
      NotAskedAgain(env, s, first, later[..|later| - 1]);
    }
  }

  lemma EffectiveStep(env: Env, s: State, call: Call)
    requires s.ctx.Some? && !call.BeginCall?
    ensures var t := Apply(env, s, call).state;
            && t.ctx.Some? && t.ctx.value.nominal == s.ctx.value.nominal && t.ctx.value.script == s.ctx.value.script
            && Rank(t.ctx.value.effective) >= Rank(s.ctx.value.effective)
            && (s.ctx.value.authorized ==> t.ctx.value.authorized)
  {
    hide Confirmed, IsProduction;
  }

  /** Escalations only raise the class of a context; only a new script guard starts another. */
  lemma {:induction false} EffectiveNeverFalls(env: Env, s: State, calls: seq<Call>)
    requires s.ctx.Some? && forall c | c in calls :: !c.BeginCall?
    ensures var t := Run(env, s, calls).state;
            && t.ctx.Some? && t.ctx.value.nominal == s.ctx.value.nominal && t.ctx.value.script == s.ctx.value.script
            && Rank(t.ctx.value.effective) >= Rank(s.ctx.value.effective)
            && (s.ctx.value.authorized ==> t.ctx.value.authorized)
  {
    hide Apply;
    if |calls| > 0 {
      assert calls[|calls| - 1] in calls;
      EffectiveNeverFalls(env, s, calls[..|calls| - 1]);
      EffectiveStep(env, Run(env, s, calls[..|calls| - 1]).state, calls[|calls| - 1]);
    }
  }
}

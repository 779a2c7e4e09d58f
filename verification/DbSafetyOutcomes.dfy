/** Exactly when each guard returns, exits or finds a URL missing, and the state it leaves. */
module DbSafetyOutcomes {
  import opened Outcomes
  import opened Text
  import opened DbSafety

  // ---------------------------------------------------------------- the phrase

  predicate Blank(s: string) {
    forall i | 0 <= i < |s| :: IsSpace(s[i])
  }

  /** The phrase, with nothing but white space around it. */
  predicate HasPhrase(typed: Answer) {
    && typed.Some?
    && exists i | 0 <= i <= |typed.value| :: PhraseAt(typed.value, i)
  }

  predicate PhraseAt(s: string, i: nat)
    requires i <= |s|
  {
    PHRASE <= s[i..] && Blank(s[..i]) && Blank(s[i..][|PHRASE|..])
  }

  lemma PhraseEnds()
    ensures |PHRASE| > 0 && !IsSpace(PHRASE[0]) && !IsSpace(PHRASE[|PHRASE| - 1])
  {
    assert PHRASE[0] == 'I';
    assert |PHRASE| == 40 && PHRASE[39] == 'N';
  }

  lemma ConfirmedIff(typed: Answer)
    ensures Confirmed(typed) <==> HasPhrase(typed)
  {
    hide Strip;
    PhraseEnds();
    if typed.Some? {
      var s := typed.value;
      var from, to := StripIs(s);
      if Confirmed(typed) {
        assert s[from..][..to - from] == s[from..to] == PHRASE;
        assert s[from..][|PHRASE|..] == s[to..];
        assert PhraseAt(s, from);
      }
      if i: nat :| i <= |s| && PhraseAt(s, i) {
        PhraseStripped(s, from, to, i);
      }
    }
  }

  lemma PhraseStripped(s: string, from: nat, to: nat, i: nat)
    requires from <= to <= |s| && Stripped(s[from..to]) && i <= |s| && PhraseAt(s, i)
    requires forall k | 0 <= k < from || to <= k < |s| :: IsSpace(s[k])
    ensures s[from..to] == PHRASE
  {
    PhraseEnds();
    var n := |PHRASE|;
    assert s[i..][..n] == PHRASE;
    assert s[i] == PHRASE[0] && s[i + n - 1] == PHRASE[n - 1];
    assert forall k | 0 <= k < i :: s[..i][k] == s[k];
    assert forall k | i + n <= k < |s| :: s[i..][n..][k - i - n] == s[k];
    assert from <= i && i + n <= to;
    assert s[from..to][0] == s[from] && s[from..to][to - from - 1] == s[to - 1];
    assert from == i && to == i + n;
    assert s[from..to] == s[i..][..n];
  }

  // ---------------------------------------------------------------- class D

  /** Class D goes on: locally without the flag, and with it on a production URL once the phrase is typed. */
  predicate Grants(env: Env, url: string, allow: bool, typed: Answer) {
    && url != ""
    && if allow then env.productionUrl != "" && env.hasProductionHost(env.productionUrl) && HasPhrase(typed)
       else !env.hasProductionHost(url)
  }

  predicate Unset(env: Env, url: string, allow: bool) {
    url == "" || (allow && env.productionUrl == "")
  }

  /** How one authorisation ends: the URL it leaves in place, and its entry in the log. */
  predicate Decided(env: Env, s: State, step: Step, script: string, allow: bool, typed: Answer) {
    && (step.outcome.Returned? <==> Grants(env, s.url, allow, typed))
    && (step.outcome.UrlNotSet? <==> Unset(env, s.url, allow))
    && (step.outcome.Exited? <==> !Grants(env, s.url, allow, typed) && !Unset(env, s.url, allow))
    && (step.outcome.Returned? ==> step.outcome.url == step.state.url)
    && step.state.url == (if allow && !step.outcome.UrlNotSet? then env.productionUrl else s.url)
    && step.state.log ==
       (if allow && step.outcome.Returned? then s.log + [LogEntry(script, env.productionUrl)] else s.log)
  }

  lemma AuthorizeIff(env: Env, s: State, script: string, allow: bool, typed: Answer)
    ensures Decided(env, s, Authorize(env, s, script, allow, typed), script, allow, typed)
    ensures Authorize(env, s, script, allow, typed).state.ctx == s.ctx
  {
    hide Confirmed, HasPhrase;
    ConfirmedIff(typed);
  }

  // ---------------------------------------------------------------- the guards

  /** A run at class D leaves the rights of class D exactly when it is granted. */
  lemma BeginDIff(env: Env, s: State, script: string, allow: bool, useProduction: bool, typed: Answer)
    ensures var step := Begin(env, s, D, script, allow, useProduction, typed);
            && Decided(env, s, step, script, allow, typed)
            && step.state.ctx == Some(Context(script, D, D, allow, step.outcome.Returned?))
  {
    hide Authorize, Decided;
    var begun := s.(ctx := Some(Context(script, D, D, allow, false)));
    AuthorizeIff(env, begun, script, allow, typed);
    SameStart(env, begun, s, Authorize(env, begun, script, allow, typed), script, allow, typed);
  }

  /** An authorisation looks at the URL and the log only, and the rights it leaves are no part of what it decides. */
  lemma SameStart(env: Env, s: State, t: State, step: Step, script: string, allow: bool, typed: Answer)
    requires t.url == s.url && t.log == s.log && Decided(env, s, step, script, allow, typed)
    ensures Decided(env, t, step, script, allow, typed) && Decided(env, t, MarkAuthorized(step), script, allow, typed)
    ensures step.outcome != Done
  {
  }

  /** Class C with the flag is decided as class D, without its rights; without the flag only a local URL will do. */
  lemma BeginCIff(env: Env, s: State, script: string, allow: bool, useProduction: bool, typed: Answer)
    ensures var step := Begin(env, s, C, script, allow, useProduction, typed);
            && step.state.ctx == Some(Context(script, C, C, allow, false))
            && (allow ==> Decided(env, s, step, script, true, typed))
            && (!allow ==>
                  && step.state.url == s.url && step.state.log == s.log
                  && step.outcome ==
                     if s.url == "" then UrlNotSet
                     else if env.hasProductionHost(s.url) then Exited else Returned(s.url))
  {
    hide Authorize, Decided;
    var begun := s.(ctx := Some(Context(script, C, C, allow, false)));
    AuthorizeIff(env, begun, script, true, typed);
    SameStart(env, begun, s, Authorize(env, begun, script, true, typed), script, true, typed);
  }

  /** Classes A and B ask and log nothing: A returns whichever URL it is told to, B DATABASE_URL unless that is a
      production URL without the flag. */
  lemma BeginABIff(env: Env, s: State, level: Level, script: string, allow: bool, useProduction: bool, typed: Answer)
    requires level == A || level == B
    ensures var step := Begin(env, s, level, script, allow, useProduction, typed);
            var wanted := if level == A && useProduction then env.productionUrl else s.url;
            && step.state.ctx == Some(Context(script, level, level, allow, false)) && step.state.log == s.log
            && step.outcome ==
               (if wanted == "" then UrlNotSet
                else if level == B && env.hasProductionHost(wanted) && !allow then Exited else Returned(wanted))
            && step.state.url == if wanted == "" then s.url else wanted
  {
  }

  /** An escalation passes without a context, with the rights already given, or when class D is granted now; it raises
      the class in any case. */
  lemma RequireIff(env: Env, s: State, typed: Answer)
    ensures var step := Require(env, s, typed);
            if s.ctx.None? || s.ctx.value.authorized then step == Step(s, Done)
            else
              var c := s.ctx.value;
              && (step.outcome.Done? <==> Grants(env, s.url, c.allow, typed))
              && (step.outcome.UrlNotSet? <==> Unset(env, s.url, c.allow))
              && step.outcome in {Done, UrlNotSet, Exited}
              && step.state.ctx == Some(c.(effective := D, authorized := step.outcome.Done?))
              && step.state.url == (if c.allow && !step.outcome.UrlNotSet? then env.productionUrl else s.url)
              && step.state.log == if c.allow && step.outcome.Done? then s.log + [LogEntry(c.script, env.productionUrl)]
                                   else s.log
  {
    hide Authorize, Grants, Unset;
    if s.ctx.Some? {
      AuthorizeIff(env, s.(ctx := Some(s.ctx.value.(effective := D))), s.ctx.value.script, s.ctx.value.allow, typed);
    }
  }

  /** The destructive guard is decided by its own flag; it opens a class D context or adds its rights to the one there
      is. */
  lemma DestructiveIff(env: Env, s: State, script: string, allow: bool, typed: Answer)
    ensures var step := Destructive(env, s, script, allow, typed);
            var before := if s.ctx.Some? then s.ctx.value else Context(script, D, D, allow, false);
            && Decided(env, s, step, script, allow, typed)
            && step.state.ctx ==
               Some(if step.outcome.Returned? then before.(allow := before.allow || allow, effective := D,
                                                           authorized := true)
                    else before.(allow := before.allow || allow))
  {
    hide Authorize, Decided;
    var begun := Opened(s, script, allow);
    AuthorizeIff(env, begun, script, allow, typed);
    SameStart(env, begun, s, Authorize(env, begun, script, allow, typed), script, allow, typed);
  }
}

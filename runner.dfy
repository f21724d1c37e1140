/**
 * `CommandLineRunner.RunCoreAsync`: the candidate verb is found once; the
 * pre-filters run in registration order, each created on the spot and
 * cached, and the first that leaves the context suppressed ends the run;
 * then the router's single pick is invoked; only when there is no pick do
 * the post-filters run, on the cached instances, with the same stop rule;
 * when nothing stopped the run, the unmatched verb is an error.
 *
 * What a filter does is not visible here.  It is given as a script: the
 * exit codes it passes to `SuppressFurtherHandlers`, in order, in each
 * phase.  The run reports a trace of the creator, filter and handler calls.
 */
module Runner {
  import opened Wrappers
  import opened MatchResults
  import opened Helpers
  import opened Tokenizer
  import opened Reflection
  import opened Coercion
  import opened Registration
  import opened RuntimeParser
  import opened ImmutableParser
  import opened VerbRouter
  import opened CommandLines
  import opened FilterContexts

  /** The exit codes one filter passes to `SuppressFurtherHandlers` in one phase. */
  type Script = seq<int>

  /** A call the run makes: a filter created (instances are numbered in creation order), a filter run in the pre or post phase, a handler invoked. */
  datatype Event =
    | Created(filter: FilterMatch, instance: nat)
    | Filtered(instance: nat, post: bool)
    | Handled(verbType: TypeId)

  /** The effect of one filter's script on the context: the first rejected suppression throws out of the filter. */
  function FilterEffect(c: Ctx, script: Script): (r: (Outcome, Ctx))
    ensures r.0.Fail? ==> r.0.error == InvalidOperation
    ensures r.1.counter >= c.counter
  {
    if script == [] then (Pass, c)
    else
      var n := |script| - 1;
      var before := FilterEffect(c, script[..n]);
      if before.0.Fail? then before else Suppress(before.1, script[n])
  }

  lemma FilterEffectSnoc(c: Ctx, script: Script, i: nat)
    requires i < |script|
    ensures var before := FilterEffect(c, script[..i]);
      FilterEffect(c, script[..i + 1]) == if before.0.Fail? then before else Suppress(before.1, script[i])
  {
    assert script[..i + 1][..i] == script[..i];
  }

  /**
   * On a context nobody has suppressed yet: a filter that does not suppress
   * changes nothing, one suppression stops the run with its code, and a
   * second one throws, keeping the first code.
   */
  lemma {:induction false} FilterEffectFromFresh(c: Ctx, script: Script)
    requires c.counter == 0
    ensures script == [] ==> FilterEffect(c, script) == (Pass, c)
    ensures |script| == 1 ==> FilterEffect(c, script) == (Pass, Ctx(1, script[0]))
    ensures |script| >= 2 ==> FilterEffect(c, script) == (Fail(InvalidOperation), Ctx(2, script[0]))
  {
    if script != [] {
      var n := |script| - 1;
      FilterEffectFromFresh(c, script[..n]);
      if n >= 1 {
        assert script[..n][0] == script[0];
      }
    }
  }

  /** A filter's `Filter` or `PostFilter` call: its suppressions, in order, until one throws. */
  method ApplyFilter(context: CommandLineFilterContext, script: Script) returns (r: Outcome)
    modifies context
    ensures (r, context.State()) == FilterEffect(old(context.State()), script)
  {
    ghost var start := context.State();
    var i := 0;
    r := Pass;
    while i < |script|
      invariant 0 <= i <= |script|
      invariant r == Pass && (r, context.State()) == FilterEffect(start, script[..i])
    {
      FilterEffectSnoc(start, script, i);
      r := context.SuppressFurtherHandlers(script[i]);
      if r.Fail? {
        FilterEffectStops(start, script, i + 1);
        return;
      }
      i := i + 1;
    }
    assert script[..|script|] == script;
  }

  lemma {:induction false} FilterEffectStops(c: Ctx, script: Script, i: nat)
    requires i <= |script| && FilterEffect(c, script[..i]).0.Fail?
    ensures FilterEffect(c, script) == FilterEffect(c, script[..i])
    decreases |script| - i
  {
    if i < |script| {
      FilterEffectSnoc(c, script, i);
      FilterEffectStops(c, script, i + 1);
    } else {
      assert script[..i] == script;
    }
  }

  // ---------------------------------------------------------------- the two filter phases

  /** The run's state during a phase: the context, the filter cache, how many filters were created, the trace, and whether a filter threw. */
  datatype Phase = Phase(ctx: Ctx, cache: map<FilterMatch, nat>, created: nat, events: seq<Event>, outcome: Outcome)

  /** A filter threw, or left the context suppressed: the run ends here. */
  predicate Stops(s: Phase)
  {
    s.outcome.Fail? || IsSuppressed(s.ctx)
  }

  function Start(): Phase
  {
    Phase(Ctx(0, 0), map[], 0, [], Pass)
  }

  /** One pre-filter: created (a creation that throws ends the run), cached under its registration, then run. */
  function PreStep(s: Phase, m: FilterMatch, pre: FilterMatch -> Script): (r: Phase)
  {
    if m.creation.Fail? then Phase(s.ctx, s.cache, s.created, s.events, m.creation)
    else
      var id := s.created;
      var effect := FilterEffect(s.ctx, pre(m));
      Phase(effect.1, s.cache[m := id], id + 1, s.events + [Created(m, id), Filtered(id, false)], effect.0)
  }

  /** One post-filter: the cached instance if there is one, otherwise a new one (not cached, and its creation may throw), then run. */
  function PostStep(s: Phase, m: FilterMatch, post: FilterMatch -> Script): (r: Phase)
  {
    var cached := m in s.cache;
    if !cached && m.creation.Fail? then Phase(s.ctx, s.cache, s.created, s.events, m.creation)
    else
      var id := if cached then s.cache[m] else s.created;
      var effect := FilterEffect(s.ctx, post(m));
      var creation := if cached then [] else [Created(m, id)];
      Phase(effect.1, s.cache, if cached then s.created else s.created + 1, s.events + creation + [Filtered(id, true)], effect.0)
  }

  function PrePhase(filters: seq<FilterMatch>, pre: FilterMatch -> Script): (r: Phase)
  {
    if filters == [] then Start()
    else
      var n := |filters| - 1;
      var before := PrePhase(filters[..n], pre);
      if Stops(before) then before else PreStep(before, filters[n], pre)
  }

  function PostPhase(filters: seq<FilterMatch>, post: FilterMatch -> Script, start: Phase): (r: Phase)
  {
    if filters == [] then start
    else
      var n := |filters| - 1;
      var before := PostPhase(filters[..n], post, start);
      if Stops(before) then before else PostStep(before, filters[n], post)
  }

  lemma PrePhaseSnoc(filters: seq<FilterMatch>, i: nat, pre: FilterMatch -> Script)
    requires i < |filters|
    ensures var before := PrePhase(filters[..i], pre);
      PrePhase(filters[..i + 1], pre) == if Stops(before) then before else PreStep(before, filters[i], pre)
  {
    assert filters[..i + 1][..i] == filters[..i];
  }

  lemma PostPhaseSnoc(filters: seq<FilterMatch>, i: nat, post: FilterMatch -> Script, start: Phase)
    requires i < |filters|
    ensures var before := PostPhase(filters[..i], post, start);
      PostPhase(filters[..i + 1], post, start) == if Stops(before) then before else PostStep(before, filters[i], post)
  {
    assert filters[..i + 1][..i] == filters[..i];
  }

  lemma {:induction false} PrePhaseStops(filters: seq<FilterMatch>, i: nat, pre: FilterMatch -> Script)
    requires i <= |filters| && Stops(PrePhase(filters[..i], pre))
    ensures PrePhase(filters, pre) == PrePhase(filters[..i], pre)
    decreases |filters| - i
  {
    if i < |filters| {
      PrePhaseSnoc(filters, i, pre);
      PrePhaseStops(filters, i + 1, pre);
    } else {
      assert filters[..i] == filters;
    }
  }

  lemma {:induction false} PostPhaseStops(filters: seq<FilterMatch>, i: nat, post: FilterMatch -> Script, start: Phase)
    requires i <= |filters| && Stops(PostPhase(filters[..i], post, start))
    ensures PostPhase(filters, post, start) == PostPhase(filters[..i], post, start)
    decreases |filters| - i
  {
    if i < |filters| {
      PostPhaseSnoc(filters, i, post, start);
      PostPhaseStops(filters, i + 1, post, start);
    } else {
      assert filters[..i] == filters;
    }
  }

  // ---------------------------------------------------------------- the whole run

  /** `RunCoreAsync` as a value: the exit code or the exception, and the trace. */
  function RunSpec(verb: Option<string>, filters: seq<FilterMatch>, matchers: seq<Matcher>, pre: FilterMatch -> Script, post: FilterMatch -> Script): (r: (Result<int>, seq<Event>))
  {
    var p := PrePhase(filters, pre);
    if p.outcome.Fail? then (Failure(p.outcome.error), p.events)
    else if IsSuppressed(p.ctx) then (Success(p.ctx.exitCode), p.events)
    else
      match Routed(matchers, verb)
      case Failure(e) => (Failure(e), p.events)
      case Success(Some(pick)) => (CallDelegate(pick.handler.value), p.events + [Handled(pick.verbType.value)])
      case Success(None) =>
        var q := PostPhase(filters, post, p);
        if q.outcome.Fail? then (Failure(q.outcome.error), q.events)
        else if IsSuppressed(q.ctx) then (Success(q.ctx.exitCode), q.events)
        else (ThrowIfVerbNotMatched(verb), q.events)
  }

  // ---------------------------------------------------------------- what the trace shows

  /** The filters created, in creation order. */
  function Creations(events: seq<Event>): (r: seq<FilterMatch>)
    ensures |r| <= |events|
  {
    if events == [] then []
    else (if events[0].Created? then [events[0].filter] else []) + Creations(events[1..])
  }

  lemma {:induction false} CreationsAppend(a: seq<Event>, b: seq<Event>)
    ensures Creations(a + b) == Creations(a) + Creations(b)
  {
    if a != [] {
      assert (a + b)[0] == a[0] && (a + b)[1..] == a[1..] + b;
      CreationsAppend(a[1..], b);
      var head := if a[0].Created? then [a[0].filter] else [];
      assert head + (Creations(a[1..]) + Creations(b)) == head + Creations(a[1..]) + Creations(b);
    } else {
      assert a + b == b;
    }
  }

  /** No handler call in the trace. */
  predicate NoHandler(events: seq<Event>)
  {
    forall k :: 0 <= k < |events| ==> !events[k].Handled?
  }

  /** Only creations and pre-phase filter calls in the trace. */
  predicate PreEventsOnly(events: seq<Event>)
  {
    forall k :: 0 <= k < |events| ==> events[k].Created? || (events[k].Filtered? && !events[k].post)
  }

  /**
   * One pre-filter on an unsuppressed context: a creation that throws ends
   * the phase with nothing recorded; otherwise its two events, its one
   * creation, and what its script does to the context.
   */
  lemma PreStepFacts(before: Phase, m: FilterMatch, pre: FilterMatch -> Script)
    requires before.ctx == Ctx(0, 0)
    ensures PreEventsOnly(before.events) ==> PreEventsOnly(PreStep(before, m, pre).events)
    ensures before.cache.Keys <= PreStep(before, m, pre).cache.Keys
    ensures m.creation.Fail? ==> PreStep(before, m, pre) == before.(outcome := m.creation)
    ensures var p := PreStep(before, m, pre);
      m.creation.Pass? ==> Creations(p.events) == Creations(before.events) + [m] && m in p.cache
    ensures var p := PreStep(before, m, pre);
      m.creation.Pass? ==>
        (pre(m) == [] ==> p.outcome == Pass && p.ctx == before.ctx)
        && (|pre(m)| == 1 ==> p.outcome == Pass && p.ctx == Ctx(1, pre(m)[0]))
        && (|pre(m)| >= 2 ==> p.outcome.Fail?)
  {
    PreStepEvents(before, m, pre);
    if m.creation.Pass? {
      FilterEffectFromFresh(before.ctx, pre(m));
    }
  }

  /** The events of one pre-filter: pre-phase events only, and one creation when the filter is created. */
  lemma PreStepEvents(before: Phase, m: FilterMatch, pre: FilterMatch -> Script)
    ensures PreEventsOnly(before.events) ==> PreEventsOnly(PreStep(before, m, pre).events)
    ensures Creations(PreStep(before, m, pre).events) == Creations(before.events) + (if m.creation.Pass? then [m] else [])
  {
    if m.creation.Pass? {
      var id := before.created;
      var tail := [Created(m, id), Filtered(id, false)];
      CreationsAppend(before.events, tail);
      assert tail[1..] == [Filtered(id, false)] && tail[1..][1..] == [];
      assert Creations(tail) == [m];
    } else {
      assert Creations(before.events) + [] == Creations(before.events);
    }
  }

  /**
   * A pre-phase that nothing stopped created and cached every registration,
   * once each and in order, and left the context as new.
   */
  lemma {:induction false} PrePhaseComplete(filters: seq<FilterMatch>, pre: FilterMatch -> Script)
    ensures var p := PrePhase(filters, pre);
      !Stops(p) ==>
        p.outcome == Pass && p.ctx == Ctx(0, 0) && Creations(p.events) == filters
        && forall j :: 0 <= j < |filters| ==> filters[j] in p.cache
  {
    if filters != [] {
      var n := |filters| - 1;
      var before := PrePhase(filters[..n], pre);
      PrePhaseComplete(filters[..n], pre);
      if !Stops(before) && filters[n].creation.Pass? {
        var p := PreStep(before, filters[n], pre);
        assert PrePhase(filters, pre) == p;
        PreStepFacts(before, filters[n], pre);
        assert filters[..n] + [filters[n]] == filters;
        forall j | 0 <= j < |filters|
          ensures filters[j] in p.cache
        {
          if j < n {
            assert filters[..n][j] == filters[j];
          }
        }
      }
    }
  }

  /** The pre-phase calls no handler and no post-filter, and the filters it creates are a prefix of the registrations. */
  lemma {:induction false} PrePhaseEvents(filters: seq<FilterMatch>, pre: FilterMatch -> Script)
    ensures var p := PrePhase(filters, pre);
      PreEventsOnly(p.events) && Creations(p.events) <= filters
  {
    PrePhaseEventsOnly(filters, pre);
    PrePhaseCreations(filters, pre);
  }

  lemma {:induction false} PrePhaseEventsOnly(filters: seq<FilterMatch>, pre: FilterMatch -> Script)
    ensures PreEventsOnly(PrePhase(filters, pre).events)
  {
    if filters != [] {
      var n := |filters| - 1;
      var before := PrePhase(filters[..n], pre);
      PrePhaseEventsOnly(filters[..n], pre);
      if !Stops(before) {
        PreStepEvents(before, filters[n], pre);
      }
    }
  }

  lemma {:induction false} PrePhaseCreations(filters: seq<FilterMatch>, pre: FilterMatch -> Script)
    ensures Creations(PrePhase(filters, pre).events) <= filters
  {
    if filters != [] {
      var n := |filters| - 1;
      var before := PrePhase(filters[..n], pre);
      PrePhaseCreations(filters[..n], pre);
      assert filters[..n] <= filters;
      if !Stops(before) {
        PrePhaseComplete(filters[..n], pre);
        PreStepEvents(before, filters[n], pre);
        if filters[n].creation.Pass? {
          assert filters[..n] + [filters[n]] == filters;
        }
      }
    }
  }

  /**
   * The post-phase, started where a complete pre-phase left off, never
   * calls a handler, creates no filter (every registration is cached) and
   * keeps the trace so far.
   */
  lemma {:induction false} PostPhaseShape(filters: seq<FilterMatch>, post: FilterMatch -> Script, start: Phase)
    requires !Stops(start) && NoHandler(start.events)
    requires forall j :: 0 <= j < |filters| ==> filters[j] in start.cache
    ensures var q := PostPhase(filters, post, start);
      NoHandler(q.events) && Creations(q.events) == Creations(start.events) && start.events <= q.events
  {
    if filters != [] {
      var n := |filters| - 1;
      assert forall j :: 0 <= j < n ==> filters[..n][j] == filters[j];
      PostPhaseShape(filters[..n], post, start);
      PostPhaseCache(filters[..n], post, start);
      var before := PostPhase(filters[..n], post, start);
      if !Stops(before) {
        var id := before.cache[filters[n]];
        var q := PostStep(before, filters[n], post);
        assert q.events == before.events + [Filtered(id, true)];
        CreationsAppend(before.events, [Filtered(id, true)]);
        assert Creations([Filtered(id, true)]) == [];
        assert forall k :: 0 <= k < |before.events| ==> q.events[k] == before.events[k];
        assert start.events <= before.events <= q.events;
      }
    }
  }

  lemma {:induction false} PostPhaseCache(filters: seq<FilterMatch>, post: FilterMatch -> Script, start: Phase)
    ensures PostPhase(filters, post, start).cache == start.cache
  {
    if filters != [] {
      PostPhaseCache(filters[..|filters| - 1], post, start);
    }
  }

  /** With filters that are created and never suppress, the pre-phase runs to its end. */
  lemma {:induction false} QuietPrePhase(filters: seq<FilterMatch>, pre: FilterMatch -> Script)
    requires forall j :: 0 <= j < |filters| ==> filters[j].creation.Pass? && pre(filters[j]) == []
    ensures !Stops(PrePhase(filters, pre))
  {
    if filters != [] {
      var n := |filters| - 1;
      assert forall j :: 0 <= j < n ==> filters[..n][j] == filters[j];
      QuietPrePhase(filters[..n], pre);
      PrePhaseComplete(filters[..n], pre);
    }
  }

  /** With filters that are created and never suppress, the post-phase runs to its end. */
  lemma {:induction false} QuietPostPhase(filters: seq<FilterMatch>, post: FilterMatch -> Script, start: Phase)
    requires !Stops(start)
    requires forall j :: 0 <= j < |filters| ==> filters[j].creation.Pass? && post(filters[j]) == []
    ensures !Stops(PostPhase(filters, post, start))
  {
    if filters != [] {
      var n := |filters| - 1;
      assert forall j :: 0 <= j < n ==> filters[..n][j] == filters[j];
      QuietPostPhase(filters[..n], post, start);
    }
  }

  lemma PrePhaseNoHandler(events: seq<Event>)
    requires PreEventsOnly(events)
    ensures NoHandler(events)
  {
  }

  /** The trace of a run, branch by branch: what the pre-phase leaves, then the handler call or the post-phase. */
  lemma RunTrace(verb: Option<string>, filters: seq<FilterMatch>, matchers: seq<Matcher>, pre: FilterMatch -> Script, post: FilterMatch -> Script)
    ensures var p := PrePhase(filters, pre);
      PreEventsOnly(p.events) && NoHandler(p.events) && Creations(p.events) <= filters
    ensures var p := PrePhase(filters, pre);
      var events := RunSpec(verb, filters, matchers, pre, post).1;
      (Stops(p) ==> events == p.events)
      && (!Stops(p) && Routed(matchers, verb).Failure? ==> events == p.events)
      && (!Stops(p) && Picked(matchers, verb) ==> events == p.events + [Handled(Routed(matchers, verb).value.value.verbType.value)])
      && (!Stops(p) && Routed(matchers, verb) == Success(None) ==> NoHandler(events) && Creations(events) == filters)
  {
    var p := PrePhase(filters, pre);
    PrePhaseEvents(filters, pre);
    PrePhaseNoHandler(p.events);
    if !Stops(p) && Routed(matchers, verb) == Success(None) {
      UnroutedTrace(verb, filters, matchers, pre, post);
    }
  }

  /** An unrouted run after a complete pre-phase: the post-phase adds no handler call and no creation. */
  lemma UnroutedTrace(verb: Option<string>, filters: seq<FilterMatch>, matchers: seq<Matcher>, pre: FilterMatch -> Script, post: FilterMatch -> Script)
    requires !Stops(PrePhase(filters, pre)) && Routed(matchers, verb) == Success(None)
    ensures var events := RunSpec(verb, filters, matchers, pre, post).1;
      NoHandler(events) && Creations(events) == filters
  {
    var p := PrePhase(filters, pre);
    PrePhaseEvents(filters, pre);
    PrePhaseNoHandler(p.events);
    PrePhaseComplete(filters, pre);
    PostPhaseShape(filters, post, p);
  }

  /** At most one handler runs, and only as the run's last call. */
  lemma AtMostOneHandler(verb: Option<string>, filters: seq<FilterMatch>, matchers: seq<Matcher>, pre: FilterMatch -> Script, post: FilterMatch -> Script)
    ensures var events := RunSpec(verb, filters, matchers, pre, post).1;
      forall k :: 0 <= k < |events| && events[k].Handled? ==> k == |events| - 1
  {
    RunTrace(verb, filters, matchers, pre, post);
  }

  /** A handler runs exactly when no pre-filter stopped the run and the router picks a type. */
  lemma HandlerRunsIffRouted(verb: Option<string>, filters: seq<FilterMatch>, matchers: seq<Matcher>, pre: FilterMatch -> Script, post: FilterMatch -> Script)
    ensures var events := RunSpec(verb, filters, matchers, pre, post).1;
      (events != [] && events[|events| - 1].Handled?) <==> !Stops(PrePhase(filters, pre)) && Picked(matchers, verb)
  {
    RunTrace(verb, filters, matchers, pre, post);
    var p := PrePhase(filters, pre);
    var events := RunSpec(verb, filters, matchers, pre, post).1;
    if Stops(p) || !Picked(matchers, verb) {
      assert events != [] ==> !events[|events| - 1].Handled?;
    }
  }

  /**
   * The delegate that runs is the pick's, the one built for some registered
   * matcher: it binds that matcher's options first, so a binding that
   * throws is the run's error and the handler is not reached; otherwise
   * the run returns the handler's exit code.  The type called is the one
   * the context reports as the verb type.
   */
  lemma HandlerIsThePick(verb: Option<string>, filters: seq<FilterMatch>, matchers: seq<Matcher>, pre: FilterMatch -> Script, post: FilterMatch -> Script)
    requires !Stops(PrePhase(filters, pre)) && Picked(matchers, verb)
    ensures var (r, events) := RunSpec(verb, filters, matchers, pre, post);
      exists k :: 0 <= k < |matchers| && Match(matchers[k], verb) == Success(Routed(matchers, verb).value.value)
        && (matchers[k].binding.Fail? ==> r == Failure(matchers[k].binding.error))
        && (matchers[k].binding.Pass? ==> r == Invoke(matchers[k].handler))
        && events != [] && events[|events| - 1] == Handled(matchers[k].verbType)
    ensures var events := RunSpec(verb, filters, matchers, pre, post).1;
      events != [] && Success(Some(events[|events| - 1].verbType)) == RoutedType(matchers, verb)
  {
    var k :| 0 <= k < |matchers| && Match(matchers[k], verb) == Success(Routed(matchers, verb).value.value);
  }

  /**
   * When the options of the routed type cannot be bound, the run ends with
   * the binding's exception, as `commandLine.As(parser)` throws inside the
   * delegate: a routed verb does not guarantee an exit code.
   */
  lemma BindingFailureEndsRun(verb: Option<string>, filters: seq<FilterMatch>, matchers: seq<Matcher>, pre: FilterMatch -> Script, post: FilterMatch -> Script, k: nat)
    requires !Stops(PrePhase(filters, pre))
    requires k < |matchers| && FirstMatched(matchers, verb) == Some(k) && matchers[k].binding.Fail?
    requires forall i :: 0 <= i < k ==> matchers[i].parser.Success?
    ensures RunSpec(verb, filters, matchers, pre, post).0 == Failure(matchers[k].binding.error)
  {
  }

  /**
   * A parser lookup that throws in a type the router tries (every type
   * before it looked its parser up and did not match the verb) ends the
   * run with that exception once the pre-filters are through: no handler
   * and no post-filter runs, whatever types come after it.
   */
  lemma ParserLookupFailureEndsRun(verb: Option<string>, filters: seq<FilterMatch>, matchers: seq<Matcher>, pre: FilterMatch -> Script, post: FilterMatch -> Script, k: nat)
    requires !Stops(PrePhase(filters, pre))
    requires k < |matchers| && matchers[k].parser.Failure?
    requires forall i :: 0 <= i < k ==> matchers[i].parser.Success? && !VerbEquals(verb, matchers[i].parser.value)
    ensures RunSpec(verb, filters, matchers, pre, post) == (Failure(matchers[k].parser.error), PrePhase(filters, pre).events)
    ensures NoHandler(RunSpec(verb, filters, matchers, pre, post).1)
  {
    var f := FirstLookupFailure(matchers);
    assert f == Some(k);
    var j := FirstMatched(matchers, verb);
    assert j.Some? ==> j.value > k;
    PrePhaseEvents(filters, pre);
  }

  /**
   * An immutable options type given an option name none of its properties
   * registered: the routed type's binding is `ImmutableRun` over the parsed
   * groups, which throws `KeyNotFoundException`, and so does the run.
   */
  lemma ImmutableUnknownNameEndsRun(verb: Option<string>, filters: seq<FilterMatch>, matchers: seq<Matcher>, pre: FilterMatch -> Script, post: FilterMatch -> Script, k: nat,
                                    convert: Converter, props: seq<PropertyInfo>, names: map<Name, nat>, slots: SlotList, buffer: Buffer, groups: seq<Group>, hasVerb: bool)
    requires !Stops(PrePhase(filters, pre))
    requires k < |matchers| && FirstMatched(matchers, verb) == Some(k)
    requires forall i :: 0 <= i < k ==> matchers[i].parser.Success?
    requires AllValuesNonEmpty(groups) && PropertiesInRange(slots, names, |props|) && |buffer| == |props|
    requires groups != [] && groups[0].key != ""
    requires ShortName(groups[0].key[0]) !in names && LongName(groups[0].key) !in names
    requires matchers[k].binding == ImmutableRun(convert, props, names, slots, buffer, groups, hasVerb).0
    ensures RunSpec(verb, filters, matchers, pre, post).0 == Failure(KeyNotFound)
  {
    ImmutableRejectsUnknownName(convert, props, names, slots, buffer, groups, hasVerb);
  }

  /** Post-filters run only when the pre-phase ran to its end and the router picked nothing. */
  lemma PostFiltersOnlyWhenUnrouted(verb: Option<string>, filters: seq<FilterMatch>, matchers: seq<Matcher>, pre: FilterMatch -> Script, post: FilterMatch -> Script)
    ensures var events := RunSpec(verb, filters, matchers, pre, post).1;
      forall k :: 0 <= k < |events| && events[k].Filtered? && events[k].post ==>
        !Stops(PrePhase(filters, pre)) && Routed(matchers, verb) == Success(None)
  {
    RunTrace(verb, filters, matchers, pre, post);
    var p := PrePhase(filters, pre);
    if !Stops(p) && Picked(matchers, verb) {
      var events := p.events + [Handled(Routed(matchers, verb).value.value.verbType.value)];
      assert forall k :: 0 <= k < |p.events| ==> events[k] == p.events[k];
    }
  }

  /**
   * Each registration's filter is created at most once: the creations are
   * the registrations in order, up to where the pre-phase stopped; the
   * post-phase reuses the cached instances and creates none.
   */
  lemma FiltersCreatedOnce(verb: Option<string>, filters: seq<FilterMatch>, matchers: seq<Matcher>, pre: FilterMatch -> Script, post: FilterMatch -> Script)
    ensures Creations(RunSpec(verb, filters, matchers, pre, post).1) <= filters
    ensures !Stops(PrePhase(filters, pre)) ==> Creations(RunSpec(verb, filters, matchers, pre, post).1) == filters
  {
    RunTrace(verb, filters, matchers, pre, post);
    var p := PrePhase(filters, pre);
    if !Stops(p) {
      PrePhaseComplete(filters, pre);
      var pick := Routed(matchers, verb);
      if pick.Success? && pick.value.Some? {
        CreationsAppend(p.events, [Handled(pick.value.value.verbType.value)]);
      }
    }
  }

  /** Quiet filters before index `i` leave a pre-phase that goes on, with a fresh context, having created exactly them. */
  lemma QuietPrefix(filters: seq<FilterMatch>, pre: FilterMatch -> Script, i: nat)
    requires i <= |filters|
    requires forall j :: 0 <= j < i ==> filters[j].creation.Pass? && pre(filters[j]) == []
    ensures var before := PrePhase(filters[..i], pre);
      !Stops(before) && before.ctx == Ctx(0, 0) && PreEventsOnly(before.events) && Creations(before.events) == filters[..i]
  {
    assert forall j :: 0 <= j < i ==> filters[..i][j] == filters[j];
    QuietPrePhase(filters[..i], pre);
    PrePhaseComplete(filters[..i], pre);
    PrePhaseEventsOnly(filters[..i], pre);
  }

  /** A pre-filter that suppresses once, after quiet ones, stops the pre-phase with its code; the creations reach it and no further. */
  lemma PreSuppressionStopsPhase(filters: seq<FilterMatch>, pre: FilterMatch -> Script, i: nat)
    requires i < |filters| && filters[i].creation.Pass? && |pre(filters[i])| == 1
    requires forall j :: 0 <= j < i ==> filters[j].creation.Pass? && pre(filters[j]) == []
    ensures var p := PrePhase(filters, pre);
      p.outcome == Pass && p.ctx == Ctx(1, pre(filters[i])[0]) && PreEventsOnly(p.events) && Creations(p.events) == filters[..i + 1]
  {
    var before := PrePhase(filters[..i], pre);
    QuietPrefix(filters, pre, i);
    PreStepFacts(before, filters[i], pre);
    var p := PreStep(before, filters[i], pre);
    PrePhaseSnoc(filters, i, pre);
    assert PrePhase(filters[..i + 1], pre) == p && Stops(p);
    PrePhaseStops(filters, i + 1, pre);
    assert filters[..i + 1] == filters[..i] + [filters[i]];
  }

  /**
   * The first pre-filter that suppresses ends the run with its exit code
   * when the filters before it stay quiet: no handler runs, no post-filter
   * runs, and only the filters up to it were created.
   */
  lemma PreSuppressionEndsRun(verb: Option<string>, filters: seq<FilterMatch>, matchers: seq<Matcher>, pre: FilterMatch -> Script, post: FilterMatch -> Script, i: nat)
    requires i < |filters| && filters[i].creation.Pass? && |pre(filters[i])| == 1
    requires forall j :: 0 <= j < i ==> filters[j].creation.Pass? && pre(filters[j]) == []
    ensures var (r, events) := RunSpec(verb, filters, matchers, pre, post);
      r == Success(pre(filters[i])[0]) && PreEventsOnly(events) && Creations(events) == filters[..i + 1]
  {
    PreSuppressionStopsPhase(filters, pre, i);
  }

  /**
   * A pre-filter whose creation throws (its `commandLine.As(parser)` fails)
   * after quiet ones ends the run with that exception: no handler runs and
   * only the filters before it were created.
   */
  lemma FilterCreationFailureEndsRun(verb: Option<string>, filters: seq<FilterMatch>, matchers: seq<Matcher>, pre: FilterMatch -> Script, post: FilterMatch -> Script, i: nat)
    requires i < |filters| && filters[i].creation.Fail?
    requires forall j :: 0 <= j < i ==> filters[j].creation.Pass? && pre(filters[j]) == []
    ensures var (r, events) := RunSpec(verb, filters, matchers, pre, post);
      r == Failure(filters[i].creation.error) && PreEventsOnly(events) && Creations(events) == filters[..i]
  {
    var before := PrePhase(filters[..i], pre);
    QuietPrefix(filters, pre, i);
    PreStepFacts(before, filters[i], pre);
    PrePhaseSnoc(filters, i, pre);
    PrePhaseStops(filters, i + 1, pre);
  }

  /** When no filter ever suppresses and the router picks nothing, the run ends with the unmatched-verb error. */
  lemma QuietUnmatchedRunThrows(verb: Option<string>, filters: seq<FilterMatch>, matchers: seq<Matcher>, pre: FilterMatch -> Script, post: FilterMatch -> Script)
    requires forall j :: 0 <= j < |filters| ==> filters[j].creation.Pass? && pre(filters[j]) == [] && post(filters[j]) == []
    requires Routed(matchers, verb) == Success(None)
    ensures RunSpec(verb, filters, matchers, pre, post).0 == ThrowIfVerbNotMatched(verb)
    ensures RunSpec(verb, filters, matchers, pre, post).0.Failure?
  {
    QuietPrePhase(filters, pre);
    QuietPostPhase(filters, post, PrePhase(filters, pre));
  }

  /** Without filters, a routed verb runs its handler and nothing else. */
  lemma RoutedWithoutFilters(verb: Option<string>, matchers: seq<Matcher>, pre: FilterMatch -> Script, post: FilterMatch -> Script)
    requires Picked(matchers, verb)
    ensures var pick := Routed(matchers, verb).value.value;
      RunSpec(verb, [], matchers, pre, post) == (CallDelegate(pick.handler.value), [Handled(pick.verbType.value)])
  {
    assert PrePhase([], pre) == Start();
    assert !Stops(Start());
    assert Start().events + [Handled(Routed(matchers, verb).value.value.verbType.value)] == [Handled(Routed(matchers, verb).value.value.verbType.value)];
  }

  /** The pre-filter loop: each registration's filter created, cached and run, until one throws or suppresses. */
  method RunPreFilters(context: CommandLineFilterContext, filters: seq<FilterMatch>, pre: FilterMatch -> Script) returns (s: Phase)
    requires context.State() == Ctx(0, 0)
    modifies context
    ensures s == PrePhase(filters, pre) && context.State() == s.ctx
  {
    var cache: map<FilterMatch, nat> := map[];
    var created := 0;
    var events: seq<Event> := [];
    var i := 0;
    while i < |filters|
      invariant 0 <= i <= |filters|
      invariant Phase(context.State(), cache, created, events, Pass) == PrePhase(filters[..i], pre)
      invariant !context.Suppressed()
    {
      PrePhaseSnoc(filters, i, pre);
      var m := filters[i];
      if m.creation.Fail? {
        PrePhaseStops(filters, i + 1, pre);
        return Phase(context.State(), cache, created, events, m.creation);
      }
      var id := created;
      created := created + 1;
      cache := cache[m := id];
      events := events + [Created(m, id), Filtered(id, false)];
      var outcome := ApplyFilter(context, pre(m));
      if outcome.Fail? || context.Suppressed() {
        PrePhaseStops(filters, i + 1, pre);
        return Phase(context.State(), cache, created, events, outcome);
      }
      i := i + 1;
    }
    assert filters[..|filters|] == filters;
    s := Phase(context.State(), cache, created, events, Pass);
  }

  /** The post-filter loop: each registration's cached filter (or a new one) run, until one throws or suppresses. */
  method RunPostFilters(context: CommandLineFilterContext, filters: seq<FilterMatch>, post: FilterMatch -> Script, start: Phase) returns (s: Phase)
    requires context.State() == start.ctx && !Stops(start)
    modifies context
    ensures s == PostPhase(filters, post, start) && context.State() == s.ctx
  {
    var cache := start.cache;
    var created := start.created;
    var events := start.events;
    var i := 0;
    while i < |filters|
      invariant 0 <= i <= |filters|
      invariant Phase(context.State(), cache, created, events, Pass) == PostPhase(filters[..i], post, start)
      invariant !context.Suppressed()
    {
      PostPhaseSnoc(filters, i, post, start);
      var m := filters[i];
      var id := created;
      if m in cache {
        id := cache[m];
      } else if m.creation.Fail? {
        PostPhaseStops(filters, i + 1, post, start);
        return Phase(context.State(), cache, created, events, m.creation);
      } else {
        created := created + 1;
        events := events + [Created(m, id)];
      }
      events := events + [Filtered(id, true)];
      var outcome := ApplyFilter(context, post(m));
      if outcome.Fail? || context.Suppressed() {
        PostPhaseStops(filters, i + 1, post, start);
        return Phase(context.State(), cache, created, events, outcome);
      }
      i := i + 1;
    }
    assert filters[..|filters|] == filters;
    s := Phase(context.State(), cache, created, events, Pass);
  }

  /** `RunCoreAsync(commandLine)`, with each filter's behaviour given by its scripts for the two phases. */
  method RunCore(commandLine: CommandLine, pre: FilterMatch -> Script, post: FilterMatch -> Script) returns (r: Result<int>, events: seq<Event>)
    ensures (r, events) == RunSpec(FindPossibleVerb(commandLine.groups), commandLine.filters, commandLine.matchers, pre, post)
  {
    var verb := FindPossibleVerb(commandLine.groups);
    var context := new CommandLineFilterContext(commandLine, verb);
    var p := RunPreFilters(context, commandLine.filters, pre);
    if p.outcome.Fail? {
      return Failure(p.outcome.error), p.events;
    }
    if context.Suppressed() {
      return Success(context.exitCode), p.events;
    }
    var pick, _ := Find(commandLine.matchers, verb);
    if pick.Failure? {
      return Failure(pick.error), p.events;
    }
    if pick.value.Some? {
      r := CallDelegate(pick.value.value.handler.value);
      events := p.events + [Handled(pick.value.value.verbType.value)];
      return;
    }
    var q := RunPostFilters(context, commandLine.filters, post, p);
    if q.outcome.Fail? {
      return Failure(q.outcome.error), q.events;
    }
    if context.Suppressed() {
      return Success(context.exitCode), q.events;
    }
    r := ThrowIfVerbNotMatched(verb);
    events := q.events;
  }
}

/** The operations of `Model` (src/cern/cpymad/model.py) as transitions of
    its `State`: each rule returns how the call completes together with the
    state it leaves behind, which on an exception is the state at the point
    of the raise (Python keeps the updates made before it). */
module ModelRules {
  import opened Wrappers
  import opened Strings
  import opened MadxTools
  import opened ModelDef

  /** Only the active range may differ between `s` and `t`. */
  predicate OnlyRange(s: State, t: State)
  {
    t == s.(active := s.active.(range := t.active.range))
  }

  /** `t` differs from `s` at most in the active sequence and range. */
  predicate OnlySelection(s: State, t: State)
  {
    t == s.(active := s.active.(sequence := t.active.sequence, range := t.active.range))
  }

  /** `set_range(madrange)`. The error message of an unknown range names a
      variable `seq` that is not defined in `set_range`, so Python raises
      `NameError` while formatting it instead of the intended `KeyError`. */
  function SetRange(m: ModelDefinition, s: State, madrange: string): (r: (Outcome, State))
    ensures OnlyRange(s, r.1)
    ensures r.0.Fail? ==> r.1 == s
    ensures !Declared(m, s.active.sequence) ==> r.0 == Fail(KeyError(s.active.sequence))
    ensures Declared(m, s.active.sequence) ==>
              (r.0.Pass? <==> madrange == "" || madrange in SeqOf(m, s.active.sequence).ranges)
    ensures Declared(m, s.active.sequence) && madrange != "" && madrange !in SeqOf(m, s.active.sequence).ranges ==>
              r.0 == Fail(NameError("seq"))
    ensures r.0.Pass? && madrange != "" ==> r.1.active.range == madrange
    ensures r.0.Pass? && madrange == "" ==>
              r.1.active.range == (if s.active.range != "" then s.active.range else SeqOf(m, s.active.sequence).defaultRange)
  {
    if !Declared(m, s.active.sequence) then (Fail(KeyError(s.active.sequence)), s)
    else
      var sd := SeqOf(m, s.active.sequence);
      if madrange != "" then
        if madrange !in sd.ranges then (Fail(NameError("seq")), s)
        else (Pass, s.(active := s.active.(range := madrange)))
      else if s.active.range == "" then (Pass, s.(active := s.active.(range := sd.defaultRange)))
      else (Pass, s)
  }

  /** Setting the default range twice is setting it once. */
  lemma SetRangeDefaultIdempotent(m: ModelDefinition, s: State)
    ensures var r := SetRange(m, s, ""); SetRange(m, r.1, "") == r
  {
  }

  /** The sequence `set_sequence(sequence)` activates: the given one, else
      the active one, else the model's default. */
  function Resolve(m: ModelDefinition, s: State, sequence: string): string
  {
    if sequence != "" then sequence
    else if s.active.sequence != "" then s.active.sequence
    else m.defaultSequence
  }

  /** `set_sequence(sequence, madrange)`. With no sequence given and none
      active, the default sequence is made active before it is checked, and
      stays active when the check fails. */
  function SetSequence(m: ModelDefinition, s: State, sequence: string, madrange: string): (r: (Outcome, State))
    ensures OnlySelection(s, r.1)
    ensures var name := Resolve(m, s, sequence);
      !Declared(m, name) ==>
        r.0 == Fail(KeyError("You tried to activate a non-existing sequence")) &&
        r.1.active.sequence == (if sequence == "" then name else s.active.sequence) &&
        r.1.active.range == s.active.range
    ensures var name := Resolve(m, s, sequence);
      Declared(m, name) ==>
        r.1.active.sequence == name &&
        (r.0.Pass? <==> var rg := if madrange != "" then madrange else SeqOf(m, name).defaultRange;
                        rg == "" || rg in SeqOf(m, name).ranges)
    ensures r.0.Pass? ==> Declared(m, r.1.active.sequence)
    ensures r.0.Pass? && madrange != "" ==> r.1.active.range == madrange
    ensures r.0.Pass? && madrange == "" ==>
              var d := SeqOf(m, r.1.active.sequence).defaultRange;
              r.1.active.range == (if d != "" then d else s.active.range)
  {
    var s0 := if sequence == "" && s.active.sequence == "" then s.(active := s.active.(sequence := m.defaultSequence)) else s;
    var name := if sequence != "" then sequence else s0.active.sequence;
    if !Declared(m, name) then (Fail(KeyError("You tried to activate a non-existing sequence")), s0)
    else
      var s1 := s0.(active := s0.active.(sequence := name));
      SetRange(m, s1, if madrange != "" then madrange else SeqOf(m, name).defaultRange)
  }

  /** Activating the same sequence and range again changes nothing. */
  lemma SetSequenceIdempotent(m: ModelDefinition, s: State, sequence: string, madrange: string)
    requires SetSequence(m, s, sequence, madrange).0.Pass?
    ensures var t := SetSequence(m, s, sequence, madrange).1; SetSequence(m, t, sequence, madrange) == (Pass, t)
  {
    var t := SetSequence(m, s, sequence, madrange).1;
    assert Resolve(m, t, sequence) == Resolve(m, s, sequence);
  }

  /** `_get_range_dict(sequence, madrange)`. The range is set on the ACTIVE
      sequence, while the entry is looked up in the given one. */
  function RangeDict(m: ModelDefinition, s: State, sequence: string, madrange: string): (r: (Result<RangeDef>, State))
    ensures OnlyRange(s, r.1)
    ensures madrange == "" ==> r.1 == s
    ensures sequence != "" && !Declared(m, sequence) ==> r == (Failure(ValueError(sequence)), s)
    ensures r.0.Success? ==>
              var name := if sequence == "" then s.active.sequence else sequence;
              Declared(m, name) && r.1.active.range in SeqOf(m, name).ranges &&
              r.0.value == SeqOf(m, name).ranges[r.1.active.range]
    ensures r.0.Success? && madrange != "" ==> r.1.active.range == madrange
  {
    if sequence != "" && !Declared(m, sequence) then (Failure(ValueError(sequence)), s)
    else
      var name := if sequence == "" then s.active.sequence else sequence;
      if !Declared(m, name) then (Failure(KeyError(name)), s)
      else
        var q := if madrange != "" then SetRange(m, s, madrange) else (Pass, s);
        if q.0.Fail? then (Failure(q.0.error), q.1)
        else
          var ranges := SeqOf(m, name).ranges;
          if q.1.active.range !in ranges then (Failure(KeyError(q.1.active.range)), q.1)
          else (Success(ranges[q.1.active.range]), q.1)
  }

  /** The name `_get_twiss_initial` looks up: the given one, else the
      range's `default-twiss`. */
  function InitialName(rd: RangeDef, name: string): Option<string>
  {
    if name != "" then Some(name) else rd.defaultTwiss
  }

  /** `_get_twiss_initial(sequence, madrange, name)`. */
  function TwissInitial(m: ModelDefinition, s: State, sequence: string, madrange: string, name: string): (r: (Result<Dict>, State))
    ensures r.1 == RangeDict(m, s, sequence, madrange).1
    ensures RangeDict(m, s, sequence, madrange).0.Failure? ==> r.0 == Failure(RangeDict(m, s, sequence, madrange).0.error)
    ensures r.0.Success? <==>
              var q := RangeDict(m, s, sequence, madrange).0;
              q.Success? && q.value.conditions.Some? && InitialName(q.value, name).Some? &&
              InitialName(q.value, name).value in q.value.conditions.value
    ensures r.0.Success? ==>
              var rd := RangeDict(m, s, sequence, madrange).0.value;
              r.0.value == rd.conditions.value[InitialName(rd, name).value]
    ensures var q := RangeDict(m, s, sequence, madrange).0;
      q.Success? && q.value.conditions.Some? && name != "" && name !in q.value.conditions.value ==>
        r.0 == Failure(ValueError("twiss initial conditions with name " + name + " not found in range " + r.1.active.range))
    ensures var q := RangeDict(m, s, sequence, madrange).0;
      q.Success? && q.value.conditions.None? ==> r.0 == Failure(KeyError("twiss-initial-conditions"))
  {
    var q := RangeDict(m, s, sequence, madrange);
    var t := q.1;
    if q.0.Failure? then (Failure(q.0.error), t)
    else
      var rd := q.0.value;
      if rd.conditions.None? then (Failure(KeyError("twiss-initial-conditions")), t)
      else
        var conds := rd.conditions.value;
        if name != "" then
          if name !in conds then (Failure(ValueError("twiss initial conditions with name " + name + " not found in range " + t.active.range)), t)
          else (Success(conds[name]), t)
        else if rd.defaultTwiss.None? then (Failure(KeyError("default-twiss")), t)
        else if rd.defaultTwiss.value !in conds then (Failure(KeyError(rd.defaultTwiss.value)), t)
        else (Success(conds[rd.defaultTwiss.value]), t)
  }

  /** The entries of `d` that `p` keeps, in order: the
      `dict((key, val) for key, val in d.items() if ...)` of `twiss` and
      `match`. */
  function Keep(d: Dict, p: ((string, Value)) -> bool): (r: Dict)
    ensures |r| <= |d|
    ensures forall e :: e in r <==> e in d && p(e)
  {
    if d == [] then []
    else
      var init := Keep(d[..|d| - 1], p);
      assert d == d[..|d| - 1] + [d[|d| - 1]];
      if p(d[|d| - 1]) then init + [d[|d| - 1]] else init
  }

  /** `twiss` passes on only the initial conditions that are true values. */
  predicate TruthyEntry(e: (string, Value))
  {
    Truthy(e.1)
  }

  /** `is_match_param` of `match`. */
  predicate IsMatchParam(key: string)
  {
    Lower(key) in ["rmatrix", "chrom", "beta0", "deltap",
                   "betx", "alfx", "mux", "x", "px", "dx", "dpx",
                   "bety", "alfy", "muy", "y", "py", "dy", "dpy"]
  }

  predicate MatchEntry(e: (string, Value))
  {
    IsMatchParam(e.0)
  }

  /** The initial conditions `twiss` and `match` pass on for the active
      range, `None` when the range has none, filtered by `p`. */
  function RangeInit(m: ModelDefinition, t: State, rd: RangeDef, p: ((string, Value)) -> bool): (r: (Result<Option<Dict>>, State))
    ensures rd.conditions.None? ==> r == (Success(None), t)
    ensures rd.conditions.Some? ==>
              var i := TwissInitial(m, t, t.active.sequence, t.active.range, "");
              r.1 == i.1 && (r.0.Success? <==> i.0.Success?) &&
              (i.0.Failure? ==> r.0 == Failure(i.0.error)) &&
              (r.0.Success? ==> r.0.value.Some? && forall e :: e in r.0.value.value <==> e in i.0.value && p(e))
  {
    if rd.conditions.None? then (Success(None), t)
    else
      var i := TwissInitial(m, t, t.active.sequence, t.active.range, "");
      if i.0.Failure? then (Failure(i.0.error), i.1)
      else (Success(Some(Keep(i.0.value, p))), i.1)
  }

  /** The initial conditions a run of the active range carries: `None`
      exactly when the range has none, otherwise exactly the entries of
      the range's default conditions that `p` keeps. */
  ghost predicate InitFrom(m: ModelDefinition, t: State, rd: RangeDef, init: Option<Dict>, p: ((string, Value)) -> bool)
  {
    && (init.None? <==> rd.conditions.None?)
    && (init.Some? ==>
          var i := TwissInitial(m, t, t.active.sequence, t.active.range, "").0;
          i.Success? && forall e :: e in init.value <==> e in i.value && p(e))
  }

  lemma RangeInitFrom(m: ModelDefinition, t: State, rd: RangeDef, p: ((string, Value)) -> bool)
    requires RangeInit(m, t, rd, p).0.Success?
    ensures InitFrom(m, t, rd, RangeInit(m, t, rd, p).0.value, p)
  {
  }

  const TwissAfterAperture := "BUG in Mad-X: Cannot call twiss after aperture.."

  /** `twiss(sequence, madrange=madrange, fname=fname, use=use)`. The run
      covers the active range; the sequence counts as twissed only when no
      range was asked for. */
  function TwissRule(m: ModelDefinition, s: State, sequence: string, madrange: string, fname: string, use: bool): (r: (Outcome, State))
    ensures r.1.aperCalled == s.aperCalled && r.1.active.optic == s.active.optic
    ensures r.0.Fail? ==> r.1.trace == s.trace && r.1.twissCalled == s.twissCalled
    ensures r.0.Pass? ==>
              var name := SetSequence(m, s, sequence, madrange).1.active.sequence;
              r.1.active.sequence == name &&
              r.1.twissCalled == (if madrange == "" then s.twissCalled[name := true] else s.twissCalled)
  {
    var q := SetSequence(m, s, sequence, madrange);
    if q.0.Fail? then q
    else
      var t := q.1;
      var name := t.active.sequence;
      if Flag(t.aperCalled, name) then (Fail(ValueError(TwissAfterAperture)), t)
      else
        var ranges := SeqOf(m, name).ranges;
        if t.active.range !in ranges then (Fail(KeyError(t.active.range)), t)
        else
          var rd := ranges[t.active.range];
          var i := RangeInit(m, t, rd, TruthyEntry);
          if i.0.Failure? then (Fail(i.0.error), i.1)
          else
            var u := i.1.(trace := i.1.trace + [TwissRun(name, rd.span, i.0.value, fname, use)]);
            (Pass, if madrange == "" then u.(twissCalled := u.twissCalled[name := true]) else u)
  }

  /** A twiss that completes adds exactly one run, for the resolved
      sequence and its active range, carrying the range's default initial
      conditions with the false values dropped (`None` when the range has
      none); it marks the sequence as twissed exactly when no range was
      given, and never touches the aperture marks. */
  lemma TwissEffect(m: ModelDefinition, s: State, sequence: string, madrange: string, fname: string, use: bool)
    ensures var r := TwissRule(m, s, sequence, madrange, fname, use);
      var t := SetSequence(m, s, sequence, madrange).1;
      r.0.Pass? ==>
        var rd := SeqOf(m, t.active.sequence).ranges[t.active.range];
        r.1.trace == s.trace + [TwissRun(t.active.sequence, rd.span, r.1.trace[|s.trace|].init, fname, use)] &&
        InitFrom(m, t, rd, r.1.trace[|s.trace|].init, TruthyEntry) &&
        r.1.twissCalled == (if madrange == "" then s.twissCalled[t.active.sequence := true] else s.twissCalled)
  {
    var r := TwissRule(m, s, sequence, madrange, fname, use);
    var q := SetSequence(m, s, sequence, madrange);
    if q.0.Pass? && !Flag(q.1.aperCalled, q.1.active.sequence) {
      var t := q.1;
      var ranges := SeqOf(m, t.active.sequence).ranges;
      if t.active.range in ranges {
        var i := RangeInit(m, t, ranges[t.active.range], TruthyEntry);
        if i.0.Success? {
          RangeInitFrom(m, t, ranges[t.active.range], TruthyEntry);
        }
      }
    }
  }

  /** Every initial condition `twiss` passes on is a true value. */
  lemma TwissInitTruthy(m: ModelDefinition, t: State, rd: RangeDef, init: Option<Dict>)
    requires InitFrom(m, t, rd, init, TruthyEntry) && init.Some?
    ensures forall e :: e in init.value ==> Truthy(e.1)
  {
    forall e | e in init.value ensures Truthy(e.1) {
      assert TruthyEntry(e);
    }
  }

  /** Once the aperture of the sequence `twiss` resolves to has been
      computed, `twiss` fails before anything reaches the engine. */
  lemma TwissRefusedAfterAperture(m: ModelDefinition, s: State, sequence: string, madrange: string, fname: string, use: bool)
    requires var q := SetSequence(m, s, sequence, madrange); q.0.Pass? && Flag(q.1.aperCalled, q.1.active.sequence)
    ensures var r := TwissRule(m, s, sequence, madrange, fname, use);
      r.0 == Fail(ValueError(TwissAfterAperture)) && r.1.trace == s.trace
  {
  }

  /** `survey(sequence, madrange=madrange, fname=fname, use=use)`: a named
      range is looked up (and made active), otherwise the whole sequence is
      surveyed. */
  function SurveyRule(m: ModelDefinition, s: State, sequence: string, madrange: string, fname: string, use: bool): (r: (Outcome, State))
    ensures r.1.twissCalled == s.twissCalled && r.1.aperCalled == s.aperCalled
    ensures r.0.Pass? ==>
              var name := SetSequence(m, s, sequence, "").1.active.sequence;
              |r.1.trace| == |s.trace| + 1 && r.1.trace[..|s.trace|] == s.trace &&
              var e := r.1.trace[|s.trace|];
              e.SurveyRun? && e.sequence == name && e.fname == fname && e.use == use &&
              (madrange == "" ==> e.part.None?) &&
              (madrange != "" ==>
                 Declared(m, name) && madrange in SeqOf(m, name).ranges && r.1.active.range == madrange &&
                 e.part == Some(SeqOf(m, name).ranges[madrange].span))
    ensures r.0.Fail? ==> r.1.trace == s.trace
  {
    var q := SetSequence(m, s, sequence, "");
    if q.0.Fail? then q
    else
      var t := q.1;
      var name := t.active.sequence;
      if madrange == "" then (Pass, t.(trace := t.trace + [SurveyRun(name, None, fname, use)]))
      else
        var d := RangeDict(m, t, name, madrange);
        if d.0.Failure? then (Fail(d.0.error), d.1)
        else (Pass, d.1.(trace := d.1.trace + [SurveyRun(name, Some(d.0.value.span), fname, use)]))
  }

  /** The step of `aperture` that calls the sequence's aperture files the
      first time only. */
  function LoadAperture(m: ModelDefinition, t: State, name: string): (u: State)
    requires Declared(m, name) && name in t.aperCalled
  {
    if !t.aperCalled[name] then
      t.(trace := t.trace + Calls(SeqOf(m, name).aperfiles), aperCalled := t.aperCalled[name := true])
    else t
  }

  /** What `aperture` does once the sequence is twissed: the aperture
      files the first time, then the run; the offsets of a named range go
      with it. */
  function ApertureAfterTwiss(m: ModelDefinition, t: State, name: string, madrange: string, fname: string, use: bool): (r: (Outcome, State))
    requires Declared(m, name)
    ensures r.1.twissCalled == t.twissCalled && r.1.active.sequence == t.active.sequence
    ensures r.1.aperCalled == t.aperCalled || (name in t.aperCalled && r.1.aperCalled == t.aperCalled[name := true])
    ensures r.0.Pass? ==> Flag(r.1.aperCalled, name)
  {
    if name !in t.aperCalled then (Fail(KeyError(name)), t)
    else
      var u := LoadAperture(m, t, name);
      if madrange == "" then (Pass, u.(trace := u.trace + [ApertureRun(name, None, None, fname, use)]))
      else
        var d := RangeDict(m, u, name, madrange);
        if d.0.Failure? then (Fail(d.0.error), d.1)
        else (Pass, d.1.(trace := d.1.trace + [ApertureRun(name, Some(d.0.value.span), d.0.value.aperOffset, fname, use)]))
  }

  /** `aperture(sequence, madrange, fname=fname, use=use)`: a full twiss of
      the sequence first unless one was done. */
  function ApertureRule(m: ModelDefinition, s: State, sequence: string, madrange: string, fname: string, use: bool): (r: (Outcome, State))
  {
    var q := SetSequence(m, s, sequence, "");
    if q.0.Fail? then q
    else
      var name := q.1.active.sequence;
      var w := if !Flag(q.1.twissCalled, name) then TwissRule(m, q.1, name, "", "", true) else (Pass, q.1);
      if w.0.Fail? then w
      else ApertureAfterTwiss(m, w.1, name, madrange, fname, use)
  }

  /** Sequence names are MAD-X identifiers, never empty. */
  predicate NamedSequences(m: ModelDefinition)
  {
    forall i :: 0 <= i < |m.sequences| ==> m.sequences[i].0 != ""
  }

  /** The run `aperture` ends with: the span and the offsets of the given
      range, none without a range. */
  function ApertureEvent(m: ModelDefinition, name: string, madrange: string, fname: string, use: bool): Event
    requires Declared(m, name) && (madrange == "" || madrange in SeqOf(m, name).ranges)
  {
    if madrange == "" then ApertureRun(name, None, None, fname, use)
    else ApertureRun(name, Some(SeqOf(m, name).ranges[madrange].span), SeqOf(m, name).ranges[madrange].aperOffset, fname, use)
  }

  /** The aperture files of `name` are called while its aperture mark
      `done` is not set. */
  function AperFiles(m: ModelDefinition, name: string, done: bool): seq<Event>
    requires Declared(m, name)
  {
    if done then [] else Calls(SeqOf(m, name).aperfiles)
  }

  /** After the twiss, `aperture` adds the aperture files unless the
      sequence is marked apertured, then the run. */
  lemma ApertureAfterTwissTrace(m: ModelDefinition, t: State, name: string, madrange: string, fname: string, use: bool)
    requires Declared(m, name) && t.active.sequence == name
    requires ApertureAfterTwiss(m, t, name, madrange, fname, use).0.Pass?
    ensures name in t.aperCalled && (madrange == "" || madrange in SeqOf(m, name).ranges)
    ensures ApertureAfterTwiss(m, t, name, madrange, fname, use).1.trace
      == t.trace + AperFiles(m, name, t.aperCalled[name]) + [ApertureEvent(m, name, madrange, fname, use)]
  {
  }

  /** `t` is `t0`, then a twiss run of `name` unless `twissed`, then
      `rest`, which does not start with a twiss run. */
  predicate StepsLayout(t0: seq<Event>, t: seq<Event>, twissed: bool, name: string, rest: seq<Event>)
  {
    var n := |t0| + (if twissed then 0 else 1);
    && n < |t|
    && t[..|t0|] == t0
    && t[n..] == rest
    && (t[|t0|].TwissRun? <==> !twissed)
    && (!twissed ==> t[|t0|].sequence == name)
  }

  lemma LayoutTwissed(t0: seq<Event>, rest: seq<Event>, name: string)
    requires rest != [] && !rest[0].TwissRun?
    ensures StepsLayout(t0, t0 + rest, true, name, rest)
  {
    var t := t0 + rest;
    assert t[|t0|..] == rest;
    assert t[|t0|] == rest[0];
  }

  lemma LayoutUntwissed(t0: seq<Event>, tw: Event, rest: seq<Event>, name: string)
    requires tw.TwissRun? && tw.sequence == name && rest != []
    ensures StepsLayout(t0, t0 + [tw] + rest, false, name, rest)
  {
    var t := t0 + [tw] + rest;
    assert t[|t0| + 1..] == rest;
  }

  /** The aperture files and the run, which `aperture` issues after the twiss. */
  function ApertureRest(m: ModelDefinition, name: string, done: bool, madrange: string, fname: string, use: bool): (r: seq<Event>)
    requires Declared(m, name) && (madrange == "" || madrange in SeqOf(m, name).ranges)
    ensures r != [] && !r[0].TwissRun?
  {
    AperFiles(m, name, done) + [ApertureEvent(m, name, madrange, fname, use)]
  }

  /** `aperture` of a sequence not yet twissed: its twiss, then the rest. */
  lemma ApertureUntwissed(m: ModelDefinition, q: State, name: string, madrange: string, fname: string, use: bool)
    requires name != "" && Declared(m, name) && q.active.sequence == name && !Flag(q.twissCalled, name)
    requires SetSequence(m, q, name, "").0.Pass?
    requires var w := TwissRule(m, q, name, "", "", true);
      w.0.Pass? && ApertureAfterTwiss(m, w.1, name, madrange, fname, use).0.Pass?
    ensures name in q.aperCalled && (madrange == "" || madrange in SeqOf(m, name).ranges)
    ensures StepsLayout(q.trace, ApertureAfterTwiss(m, TwissRule(m, q, name, "", "", true).1, name, madrange, fname, use).1.trace,
                        false, name, ApertureRest(m, name, q.aperCalled[name], madrange, fname, use))
  {
    assert SetSequence(m, q, name, "").1.active.sequence == name;
    TwissEffect(m, q, name, "", "", true);
    var w := TwissRule(m, q, name, "", "", true);
    ApertureAfterTwissTrace(m, w.1, name, madrange, fname, use);
    LayoutUntwissed(q.trace, w.1.trace[|q.trace|], ApertureRest(m, name, q.aperCalled[name], madrange, fname, use), name);
  }

  /** `aperture` for any marks and any range: a twiss run first exactly
      when the sequence is not marked twissed, then its aperture files
      exactly when it is not marked apertured, then the aperture run. */
  lemma ApertureSteps(m: ModelDefinition, s: State, sequence: string, madrange: string, fname: string, use: bool)
    requires NamedSequences(m) || sequence != ""
    requires ApertureRule(m, s, sequence, madrange, fname, use).0.Pass?
    ensures var q := SetSequence(m, s, sequence, "").1;
      && Declared(m, q.active.sequence) && q.active.sequence in q.aperCalled
      && (madrange == "" || madrange in SeqOf(m, q.active.sequence).ranges)
    ensures var q := SetSequence(m, s, sequence, "").1;
      var name := q.active.sequence;
      StepsLayout(s.trace, ApertureRule(m, s, sequence, madrange, fname, use).1.trace, Flag(q.twissCalled, name), name,
                  ApertureRest(m, name, q.aperCalled[name], madrange, fname, use))
  {
    var q := SetSequence(m, s, sequence, "");
    var name := q.1.active.sequence;
    assert q.1.trace == s.trace;
    if !Flag(q.1.twissCalled, name) {
      assert name != "";
      ApertureUntwissed(m, q.1, name, madrange, fname, use);
    } else {
      ApertureAfterTwissTrace(m, q.1, name, madrange, fname, use);
      LayoutTwissed(s.trace, ApertureRest(m, name, q.1.aperCalled[name], madrange, fname, use), name);
    }
  }

  /** A completed aperture leaves its sequence both twissed and apertured. */
  lemma ApertureMarks(m: ModelDefinition, s: State, sequence: string, madrange: string, fname: string, use: bool)
    requires NamedSequences(m) || sequence != ""
    requires ApertureRule(m, s, sequence, madrange, fname, use).0.Pass?
    ensures var r := ApertureRule(m, s, sequence, madrange, fname, use);
      var name := SetSequence(m, s, sequence, "").1.active.sequence;
      Flag(r.1.twissCalled, name) && Flag(r.1.aperCalled, name) && r.1.active.sequence == name
  {
    var q := SetSequence(m, s, sequence, "");
    var name := q.1.active.sequence;
    if !Flag(q.1.twissCalled, name) {
      assert name != "";
      assert SetSequence(m, q.1, name, "").1.active.sequence == name;
    }
  }

  /** The first aperture of a sequence that was not twissed starts with its
      twiss run and then calls its aperture files. */
  lemma ApertureTwissesFirst(m: ModelDefinition, s: State, sequence: string, fname: string, use: bool)
    requires ApertureRule(m, s, sequence, "", fname, use).0.Pass?
    requires var q := SetSequence(m, s, sequence, "").1;
      !Flag(q.twissCalled, q.active.sequence) && !Flag(q.aperCalled, q.active.sequence)
    ensures var r := ApertureRule(m, s, sequence, "", fname, use);
      var name := SetSequence(m, s, sequence, "").1.active.sequence;
      |r.1.trace| == |s.trace| + 1 + |SeqOf(m, name).aperfiles| + 1 &&
      r.1.trace[|s.trace|].TwissRun? && r.1.trace[|s.trace|].sequence == name &&
      r.1.trace[|s.trace| + 1..|r.1.trace| - 1] == Calls(SeqOf(m, name).aperfiles) &&
      r.1.trace[|r.1.trace| - 1] == ApertureRun(name, None, None, fname, use)
  {
    var q := SetSequence(m, s, sequence, "");
    var name := q.1.active.sequence;
    TwissEffect(m, q.1, name, "", "", true);
    var w := TwissRule(m, q.1, name, "", "", true);
    assert SetSequence(m, q.1, name, "").1.active.sequence == name;
    var u := LoadAperture(m, w.1, name);
    assert u.trace == s.trace + [w.1.trace[|s.trace|]] + Calls(SeqOf(m, name).aperfiles);
  }

  /** A second full-sequence aperture of the same sequence runs no twiss
      and calls no file again: it adds its run and nothing else. */
  lemma ApertureOnce(m: ModelDefinition, s: State, sequence: string, fname: string, use: bool, fname2: string, use2: bool)
    requires sequence != ""
    requires ApertureRule(m, s, sequence, "", fname, use).0.Pass?
    ensures var t := ApertureRule(m, s, sequence, "", fname, use).1;
      var r := ApertureRule(m, t, sequence, "", fname2, use2);
      r.0.Pass? && r.1.trace == t.trace + [ApertureRun(sequence, None, None, fname2, use2)]
  {
    ApertureMarks(m, s, sequence, "", fname, use);
    var t := ApertureRule(m, s, sequence, "", fname, use).1;
    SetSequenceAgain(m, s, t, sequence);
  }

  /** After any call that activated `sequence` by its name, it can be
      activated again. */
  lemma SetSequenceAgain(m: ModelDefinition, s: State, t: State, sequence: string)
    requires sequence != ""
    requires SetSequence(m, s, sequence, "").0.Pass?
    requires t.active.sequence == sequence
    ensures SetSequence(m, t, sequence, "").0.Pass?
  {
  }

  /** After an aperture, a twiss of the same sequence is refused without
      reaching the engine. */
  lemma NoTwissAfterAperture(m: ModelDefinition, s: State, sequence: string, fname: string, use: bool, fname2: string, use2: bool)
    requires sequence != ""
    requires ApertureRule(m, s, sequence, "", fname, use).0.Pass?
    ensures var t := ApertureRule(m, s, sequence, "", fname, use).1;
      var r := TwissRule(m, t, sequence, "", fname2, use2);
      r.0 == Fail(ValueError(TwissAfterAperture)) && r.1.trace == t.trace
  {
    ApertureMarks(m, s, sequence, "", fname, use);
    var t := ApertureRule(m, s, sequence, "", fname, use).1;
    SetSequenceAgain(m, s, t, sequence);
    TwissRefusedAfterAperture(m, t, sequence, "", fname2, use2);
  }

  /** `match(constraints, vary, ..., sequence, fname)`: the matching run,
      with the initial conditions that are matching parameters, then a full
      twiss of the sequence. `session` is the outcome of the session's
      `match` (`MadxSession.Madx.Match`); when it fails, it fails before
      issuing anything and `match` stops there, before its twiss. */
  function MatchRule(m: ModelDefinition, s: State, sequence: string, fname: string, session: Outcome): (r: (Outcome, State))
  {
    var q := SetSequence(m, s, sequence, "");
    if q.0.Fail? then q
    else
      var t := q.1;
      var name := t.active.sequence;
      var ranges := SeqOf(m, name).ranges;
      if t.active.range !in ranges then (Fail(KeyError(t.active.range)), t)
      else
        var i := RangeInit(m, t, ranges[t.active.range], MatchEntry);
        if i.0.Failure? then (Fail(i.0.error), i.1)
        else if session.Fail? then (session, i.1)
        else
          var u := i.1.(trace := i.1.trace + [MatchRun(name, i.0.value, fname)]);
          TwissRule(m, u, name, "", "", true)
  }

  /** `t` is `t0` followed by a matching run and a twiss run of `name`,
      the matching run holding matching parameters only. */
  predicate MatchOrder(t0: seq<Event>, t: seq<Event>, name: string, fname: string)
  {
    |t| == |t0| + 2 &&
    t[..|t0|] == t0 &&
    t[|t0|].MatchRun? && t[|t0|].sequence == name && t[|t0|].fname == fname &&
    (t[|t0|].init.Some? ==> forall e :: e in t[|t0|].init.value ==> IsMatchParam(e.0)) &&
    t[|t0| + 1].TwissRun? && t[|t0| + 1].sequence == name
  }

  lemma MatchOrderOf(t0: seq<Event>, init: Option<Dict>, tw: Event, name: string, fname: string)
    requires init.Some? ==> forall e :: e in init.value ==> IsMatchParam(e.0)
    requires tw.TwissRun? && tw.sequence == name
    ensures MatchOrder(t0, t0 + [MatchRun(name, init, fname)] + [tw], name, fname)
  {
    var t := t0 + [MatchRun(name, init, fname)] + [tw];
    assert t[..|t0|] == t0;
  }

  /** A completed match runs the matching with the matching parameters of
      the active range's default initial conditions (`None` when the range
      has none), and then a full twiss of the same sequence. */
  lemma MatchEffect(m: ModelDefinition, s: State, sequence: string, fname: string, session: Outcome)
    requires MatchRule(m, s, sequence, fname, session).0.Pass?
    ensures var r := MatchRule(m, s, sequence, fname, session);
      var name := SetSequence(m, s, sequence, "").1.active.sequence;
      MatchOrder(s.trace, r.1.trace, name, fname) && Flag(r.1.twissCalled, name)
    ensures var r := MatchRule(m, s, sequence, fname, session);
      var t := SetSequence(m, s, sequence, "").1;
      && t.active.range in SeqOf(m, t.active.sequence).ranges
      && InitFrom(m, t, SeqOf(m, t.active.sequence).ranges[t.active.range], r.1.trace[|s.trace|].init, MatchEntry)
  {
    var q := SetSequence(m, s, sequence, "");
    var t := q.1;
    var name := t.active.sequence;
    var ranges := SeqOf(m, name).ranges;
    var i := RangeInit(m, t, ranges[t.active.range], MatchEntry);
    RangeInitFrom(m, t, ranges[t.active.range], MatchEntry);
    if i.0.value.Some? {
      forall e | e in i.0.value.value ensures IsMatchParam(e.0) {
        assert MatchEntry(e);
      }
    }
    var u := i.1.(trace := i.1.trace + [MatchRun(name, i.0.value, fname)]);
    TwissEffect(m, u, name, "", "", true);
    assert SetSequence(m, u, name, "").1.active.sequence == name;
    var r := TwissRule(m, u, name, "", "", true);
    assert i.1.trace == s.trace;
    MatchOrderOf(s.trace, i.0.value, r.1.trace[|u.trace|], name, fname);
  }

  /** When the session's `match` fails, `match` fails too and records no
      run, neither the matching nor the twiss after it; where the rest of
      the call would have passed, the error is the session's. */
  lemma MatchStopsOnSession(m: ModelDefinition, s: State, sequence: string, fname: string, session: Outcome)
    requires session.Fail?
    ensures var r := MatchRule(m, s, sequence, fname, session);
      && r.0.Fail?
      && r.1.trace == s.trace && r.1.twissCalled == s.twissCalled && r.1.aperCalled == s.aperCalled
      && (MatchRule(m, s, sequence, fname, Pass).0.Pass? ==> r.0 == session)
  {
  }

  /** `set_optic(optic)`: the empty name means the default optic; the
      active optic is not loaded again; otherwise its files are called and
      it becomes active. */
  function SetOptic(m: ModelDefinition, s: State, optic: string): (r: (Outcome, State))
  {
    var o := if optic == "" then m.defaultOptic else optic;
    if s.active.optic == o then (Pass, s)
    else if o !in m.optics then (Fail(KeyError(o)), s)
    else (Pass, s.(active := s.active.(optic := o), trace := s.trace + Calls(m.optics[o].initFiles)))
  }

  lemma SetOpticEffect(m: ModelDefinition, s: State, optic: string)
    ensures var o := if optic == "" then m.defaultOptic else optic;
      var r := SetOptic(m, s, optic);
      (s.active.optic == o ==> r == (Pass, s)) &&
      (s.active.optic != o && o !in m.optics ==> r == (Fail(KeyError(o)), s)) &&
      (s.active.optic != o && o in m.optics ==>
        r.0 == Pass && r.1.active == s.active.(optic := o) &&
        r.1.trace == s.trace + Calls(m.optics[o].initFiles) &&
        r.1.twissCalled == s.twissCalled && r.1.aperCalled == s.aperCalled)
  {
  }

  /** Setting an optic twice is setting it once. */
  lemma SetOpticIdempotent(m: ModelDefinition, s: State, optic: string)
    requires SetOptic(m, s, optic).0.Pass?
    ensures var t := SetOptic(m, s, optic).1; SetOptic(m, t, optic) == (Pass, t)
  {
  }

  /** `set_knob(knob, value)`: one assignment per element of the knob, its
      factor times `value`. */
  function SetKnob(m: ModelDefinition, s: State, knob: string, value: real): (r: (Outcome, State))
  {
    if knob !in m.knobs then (Fail(KeyError(knob)), s)
    else (Pass, s.(trace := s.trace + Assigns(m.knobs[knob], value)))
  }

  lemma SetKnobEffect(m: ModelDefinition, s: State, knob: string, value: real)
    ensures var r := SetKnob(m, s, knob, value);
      (knob !in m.knobs ==> r == (Fail(KeyError(knob)), s)) &&
      (knob in m.knobs ==>
        r.0 == Pass && r.1 == s.(trace := r.1.trace) &&
        |r.1.trace| == |s.trace| + |m.knobs[knob]| && r.1.trace[..|s.trace|] == s.trace &&
        forall i :: 0 <= i < |m.knobs[knob]| ==>
          r.1.trace[|s.trace| + i] == Assign(m.knobs[knob][i].0, m.knobs[knob][i].1 * value))
  {
  }

  /** The optics argument of the constructor: a name, a list of names, or
      something else, which loads nothing. */
  datatype Optics = OneOptic(name: string) | OpticList(names: seq<string>) | NoOptics

  /** `t` extends `s` by calls of files and by nothing else: the active
      sequence, range and marks are those of `s`. */
  predicate OnlyCalls(s: State, t: State)
  {
    t.active.sequence == s.active.sequence && t.active.range == s.active.range &&
    t.twissCalled == s.twissCalled && t.aperCalled == s.aperCalled &&
    ExtendsByCalls(s.trace, t.trace)
  }

  /** `t` is `t0` followed by calls of files. */
  predicate ExtendsByCalls(t0: seq<Event>, t: seq<Event>)
  {
    |t0| <= |t| && t[..|t0|] == t0 && forall i :: |t0| <= i < |t| ==> t[i].Call?
  }

  lemma OnlyCallsTrans(s: State, t: State, u: State)
    requires OnlyCalls(s, t) && OnlyCalls(t, u)
    ensures OnlyCalls(s, u)
  {
    assert u.trace[..|s.trace|] == u.trace[..|t.trace|][..|s.trace|];
    forall i | |s.trace| <= i < |u.trace| ensures u.trace[i].Call? {
      if i < |t.trace| {
        assert u.trace[i] == u.trace[..|t.trace|][i];
      }
    }
  }

  /** The optics of a list, set one after the other; the first failure
      ends the list. */
  function SetOptics(m: ModelDefinition, s: State, optics: seq<string>): (r: (Outcome, State))
    ensures OnlyCalls(s, r.1)
  {
    if optics == [] then (Pass, s)
    else
      var q := SetOptics(m, s, optics[..|optics| - 1]);
      if q.0.Fail? then q
      else
        var r := SetOptic(m, q.1, optics[|optics| - 1]);
        assert OnlyCalls(q.1, r.1);
        OnlyCallsTrans(s, q.1, r.1);
        r
  }

  /** Once a prefix of the list fails, the whole list fails the same way. */
  lemma {:induction false} SetOpticsFailed(m: ModelDefinition, s: State, optics: seq<string>, k: nat)
    requires k <= |optics| && SetOptics(m, s, optics[..k]).0.Fail?
    ensures SetOptics(m, s, optics) == SetOptics(m, s, optics[..k])
    decreases |optics| - k
  {
    if k < |optics| {
      assert optics[..k + 1][..k] == optics[..k];
      SetOpticsFailed(m, s, optics, k + 1);
    } else {
      assert optics[..k] == optics;
    }
  }

  /** The optic `set_optic(o)` makes active: `''` is the default optic. */
  function Resolved(m: ModelDefinition, o: string): string
  {
    if o == "" then m.defaultOptic else o
  }

  /** The optic active when the `i`-th name of `os` is set, starting from
      `cur`: a `set_optic` that completes leaves its name active. */
  function ActiveAt(m: ModelDefinition, cur: string, os: seq<string>, i: nat): string
    requires i <= |os|
  {
    if i == 0 then cur else Resolved(m, os[i - 1])
  }

  /** Every name of `os`, at its turn, is the active optic or one the model
      defines. */
  predicate Loadable(m: ModelDefinition, cur: string, os: seq<string>)
  {
    forall i :: 0 <= i < |os| ==> Resolved(m, os[i]) == ActiveAt(m, cur, os, i) || Resolved(m, os[i]) in m.optics
  }

  /** The files `set_optic(o)` calls while `cur` is active: none for the
      active optic, the optic's init files otherwise (an unknown optic
      fails the call, which calls nothing). */
  function TurnCalls(m: ModelDefinition, cur: string, o: string): seq<Event>
  {
    var r := Resolved(m, o);
    if r == cur then [] else if r in m.optics then Calls(m.optics[r].initFiles) else []
  }

  /** The files the names `os` call when set one after the other from the
      active optic `cur`, first name first. */
  function OpticCalls(m: ModelDefinition, cur: string, os: seq<string>): seq<Event>
    decreases |os|
  {
    if os == [] then [] else TurnCalls(m, cur, os[0]) + OpticCalls(m, Resolved(m, os[0]), os[1..])
  }

  lemma {:induction false} OpticCallsSnoc(m: ModelDefinition, cur: string, os: seq<string>, o: string)
    ensures OpticCalls(m, cur, os + [o]) == OpticCalls(m, cur, os) + TurnCalls(m, ActiveAt(m, cur, os, |os|), o)
    decreases |os|
  {
    if os == [] {
      assert [o][1..] == [];
    } else {
      var a := Resolved(m, os[0]);
      var t := os + [o];
      assert t[0] == os[0] && t[1..] == os[1..] + [o];
      OpticCallsSnoc(m, a, os[1..], o);
      var x := ActiveAt(m, a, os[1..], |os| - 1);
      assert x == ActiveAt(m, cur, os, |os|) by {
        if |os| > 1 { assert os[1..][|os| - 2] == os[|os| - 1]; }
      }
      var h := TurnCalls(m, cur, os[0]);
      calc {
        OpticCalls(m, cur, t);
        h + OpticCalls(m, a, os[1..] + [o]);
        h + (OpticCalls(m, a, os[1..]) + TurnCalls(m, x, o));
        (h + OpticCalls(m, a, os[1..])) + TurnCalls(m, x, o);
        OpticCalls(m, cur, os) + TurnCalls(m, x, o);
      }
    }
  }

  /** Appending a name does not change the optic active at earlier turns. */
  lemma ActiveAtSnoc(m: ModelDefinition, cur: string, os: seq<string>, o: string, i: nat)
    requires i <= |os|
    ensures ActiveAt(m, cur, os + [o], i) == ActiveAt(m, cur, os, i)
  {
    if i > 0 { assert (os + [o])[i - 1] == os[i - 1]; }
  }

  lemma LoadableSnoc(m: ModelDefinition, cur: string, os: seq<string>, o: string)
    ensures Loadable(m, cur, os + [o]) <==>
      Loadable(m, cur, os) && (Resolved(m, o) == ActiveAt(m, cur, os, |os|) || Resolved(m, o) in m.optics)
  {
    var t := os + [o];
    if Loadable(m, cur, t) {
      forall i | 0 <= i < |os|
        ensures Resolved(m, os[i]) == ActiveAt(m, cur, os, i) || Resolved(m, os[i]) in m.optics
      {
        assert t[i] == os[i];
        ActiveAtSnoc(m, cur, os, o, i);
      }
      assert t[|os|] == o;
      ActiveAtSnoc(m, cur, os, o, |os|);
    }
    if Loadable(m, cur, os) && (Resolved(m, o) == ActiveAt(m, cur, os, |os|) || Resolved(m, o) in m.optics) {
      forall i | 0 <= i < |t|
        ensures Resolved(m, t[i]) == ActiveAt(m, cur, t, i) || Resolved(m, t[i]) in m.optics
      {
        ActiveAtSnoc(m, cur, os, o, i);
        if i < |os| { assert t[i] == os[i]; } else { assert t[i] == o; }
      }
    }
  }

  /** One `set_optic` in the terms of `TurnCalls`. */
  lemma SetOpticTurn(m: ModelDefinition, t: State, o: string)
    ensures var r := SetOptic(m, t, o);
      && (r.0.Pass? <==> Resolved(m, o) == t.active.optic || Resolved(m, o) in m.optics)
      && (r.0.Pass? ==> r.1.active.optic == Resolved(m, o) && r.1.trace == t.trace + TurnCalls(m, t.active.optic, o))
  {
    SetOpticEffect(m, t, o);
  }

  lemma SetOpticsSnoc(m: ModelDefinition, s: State, p: seq<string>, o: string)
    ensures var q := SetOptics(m, s, p);
      SetOptics(m, s, p + [o]) == if q.0.Fail? then q else SetOptic(m, q.1, o)
  {
    assert (p + [o])[..|p|] == p && (p + [o])[|p|] == o;
  }

  lemma AppendStep(t0: seq<Event>, a: seq<Event>, b: seq<Event>, ab: seq<Event>, t1: seq<Event>, t2: seq<Event>)
    requires t1 == t0 + a && t2 == t1 + b && ab == a + b
    ensures t2 == t0 + ab
  {
  }

  /** One more name at the end of a list whose optics were all set. */
  lemma SetOpticsStep(m: ModelDefinition, s: State, p: seq<string>, o: string)
    requires var q := SetOptics(m, s, p);
      && q.0.Pass? && q.1.active.optic == ActiveAt(m, s.active.optic, p, |p|)
      && q.1.trace == s.trace + OpticCalls(m, s.active.optic, p)
    ensures var r := SetOptics(m, s, p + [o]);
      && (r.0.Pass? <==> Resolved(m, o) == ActiveAt(m, s.active.optic, p, |p|) || Resolved(m, o) in m.optics)
      && (r.0.Pass? ==> r.1.active.optic == Resolved(m, o) && r.1.trace == s.trace + OpticCalls(m, s.active.optic, p + [o]))
  {
    var cur := s.active.optic;
    var q := SetOptics(m, s, p);
    var r := SetOptic(m, q.1, o);
    SetOpticsSnoc(m, s, p, o);
    SetOpticTurn(m, q.1, o);
    if r.0.Pass? {
      OpticCallsSnoc(m, cur, p, o);
      AppendStep(s.trace, OpticCalls(m, cur, p), TurnCalls(m, q.1.active.optic, o), OpticCalls(m, cur, p + [o]), q.1.trace, r.1.trace);
    }
  }

  /** Setting a list of optics completes exactly when every name is, at its
      turn, active or defined; it then calls the init files of each optic
      not yet active at its turn, in list order, and leaves the last name
      active. */
  lemma {:induction false} SetOpticsOrder(m: ModelDefinition, s: State, os: seq<string>)
    ensures var r := SetOptics(m, s, os);
      && (r.0.Pass? <==> Loadable(m, s.active.optic, os))
      && (r.0.Pass? ==>
            r.1.active.optic == ActiveAt(m, s.active.optic, os, |os|) &&
            r.1.trace == s.trace + OpticCalls(m, s.active.optic, os))
    decreases |os|
  {
    if os != [] {
      var p, o := os[..|os| - 1], os[|os| - 1];
      assert os == p + [o];
      SetOpticsOrder(m, s, p);
      LoadableSnoc(m, s.active.optic, p, o);
      if SetOptics(m, s, p).0.Pass? {
        SetOpticsStep(m, s, p, o);
      }
    }
  }

  /** The names `_setup_initial` calls `set_optic` with. */
  function OpticNames(optics: Optics): seq<string>
  {
    match optics
    case OneOptic(o) => [o]
    case OpticList(os) => os
    case NoOptics => []
  }

  function ApplyOptics(m: ModelDefinition, s: State, optics: Optics): (r: (Outcome, State))
    ensures OnlyCalls(s, r.1)
  {
    match optics
    case OneOptic(o) => var r := SetOptic(m, s, o); assert OnlyCalls(s, r.1); r
    case OpticList(os) => SetOptics(m, s, os)
    case NoOptics => (Pass, s)
  }

  /** The optics argument of the constructor sets its names in order,
      as `SetOpticsOrder` says; something that is neither a name nor a list
      sets nothing. */
  lemma ApplyOpticsOrder(m: ModelDefinition, s: State, optics: Optics)
    ensures var r := ApplyOptics(m, s, optics);
      var os := OpticNames(optics);
      && (r.0.Pass? <==> Loadable(m, s.active.optic, os))
      && (r.0.Pass? ==>
            r.1.active.optic == ActiveAt(m, s.active.optic, os, |os|) &&
            r.1.trace == s.trace + OpticCalls(m, s.active.optic, os))
  {
    match optics
    case OneOptic(o) =>
      assert [] + [o] == [o];
      SetOpticsSnoc(m, s, [], o);
      SetOpticsOrder(m, s, [o]);
    case OpticList(os) =>
      SetOpticsOrder(m, s, os);
    case NoOptics =>
  }

  /** The beam commands of `_init_sequence`, one per sequence in the
      model's order; the first beam the model does not define ends them. */
  function BeamEvents(m: ModelDefinition, seqs: seq<(string, SeqDef)>): (r: (seq<Event>, Outcome))
    ensures r.1.Pass? <==> forall i :: 0 <= i < |seqs| ==> seqs[i].1.beam in m.beams
    ensures r.1.Pass? ==> |r.0| == |seqs|
    ensures r.1.Fail? ==> |r.0| < |seqs| && r.1 == Fail(KeyError(seqs[|r.0|].1.beam)) && seqs[|r.0|].1.beam !in m.beams
    ensures forall i :: 0 <= i < |r.0| ==> seqs[i].1.beam in m.beams && r.0[i] == Beam(m.beams[seqs[i].1.beam])
  {
    if seqs == [] then ([], Pass)
    else
      var p := BeamEvents(m, seqs[..|seqs| - 1]);
      if p.1.Fail? then p
      else
        var b := seqs[|seqs| - 1].1.beam;
        if b !in m.beams then (p.0, Fail(KeyError(b)))
        else (p.0 + [Beam(m.beams[b])], Pass)
  }

  /** Every loaded sequence marked as neither twissed nor apertured. */
  function Unmarked(loaded: seq<string>): (r: map<string, bool>)
    ensures r.Keys == set n | n in loaded
    ensures forall n :: !Flag(r, n)
  {
    map n | n in loaded :: false
  }

  /** `_setup_initial(sequence, optics)`: the model's files, a beam per
      sequence, the active sequence, the optics, and fresh marks for the
      sequences the engine has loaded. */
  function SetupRule(m: ModelDefinition, s: State, sequence: string, optics: Optics, loaded: seq<string>): (r: (Outcome, State))
  {
    var s1 := s.(trace := s.trace + Calls(m.initFiles));
    var b := BeamEvents(m, m.sequences);
    var s2 := s1.(trace := s1.trace + b.0);
    if b.1.Fail? then (b.1, s2)
    else
      var q := SetSequence(m, s2, sequence, "");
      if q.0.Fail? then q
      else
        var o := ApplyOptics(m, q.1, optics);
        if o.0.Fail? then o
        else (Pass, o.1.(twissCalled := Unmarked(loaded), aperCalled := Unmarked(loaded)))
  }

  /** A trace that is `a + c + bs` followed by calls holds `a + c` first,
      the elements of `bs` right after, and calls after those. */
  lemma PrefixLayout(t: seq<Event>, a: seq<Event>, c: seq<Event>, bs: seq<Event>)
    requires ExtendsByCalls(a + c + bs, t)
    ensures |a| + |c| + |bs| <= |t|
    ensures t[..|a| + |c|] == a + c
    ensures forall i :: 0 <= i < |bs| ==> t[|a| + |c| + i] == bs[i]
    ensures forall i :: |a| + |c| + |bs| <= i < |t| ==> t[i].Call?
  {
    var p := t[..|a| + |c| + |bs|];
    assert t[..|a| + |c|] == p[..|a| + |c|];
    forall i | 0 <= i < |bs| ensures t[|a| + |c| + i] == bs[i] {
      assert t[|a| + |c| + i] == p[|a| + |c| + i];
    }
  }

  /** A completed setup leaves the trace of the model's files and the
      beams, followed by calls of optic files. */
  lemma SetupCalls(m: ModelDefinition, s: State, sequence: string, optics: Optics, loaded: seq<string>)
    requires SetupRule(m, s, sequence, optics, loaded).0.Pass?
    ensures BeamEvents(m, m.sequences).1.Pass?
    ensures ExtendsByCalls(s.trace + Calls(m.initFiles) + BeamEvents(m, m.sequences).0,
                           SetupRule(m, s, sequence, optics, loaded).1.trace)
  {
    var b := BeamEvents(m, m.sequences);
    var s2 := s.(trace := s.trace + Calls(m.initFiles) + b.0);
    var q := SetSequence(m, s2, sequence, "");
    var o := ApplyOptics(m, q.1, optics);
    assert SetupRule(m, s, sequence, optics, loaded).1.trace == o.1.trace;
    assert q.1.trace == s2.trace;
    assert OnlyCalls(q.1, o.1);
  }

  /** The order `_setup_initial` issues its calls in after `t0`: the
      model's files, one beam per sequence of the model in order, then only
      calls of files. */
  predicate SetupOrder(m: ModelDefinition, t0: seq<Event>, t: seq<Event>)
  {
    var n := |t0| + |m.initFiles|;
    n + |m.sequences| <= |t| &&
    t[..n] == t0 + Calls(m.initFiles) &&
    (forall i :: 0 <= i < |m.sequences| ==>
       m.sequences[i].1.beam in m.beams && t[n + i] == Beam(m.beams[m.sequences[i].1.beam])) &&
    (forall i :: n + |m.sequences| <= i < |t| ==> t[i].Call?)
  }

  lemma BeamLayout(m: ModelDefinition, t0: seq<Event>, t: seq<Event>)
    requires BeamEvents(m, m.sequences).1.Pass?
    requires ExtendsByCalls(t0 + Calls(m.initFiles) + BeamEvents(m, m.sequences).0, t)
    ensures SetupOrder(m, t0, t)
  {
    var b := BeamEvents(m, m.sequences).0;
    PrefixLayout(t, t0, Calls(m.initFiles), b);
    assert |Calls(m.initFiles)| == |m.initFiles|;
  }

  /** A completed setup calls the model's files, then sets one beam per
      sequence in order, then only calls optic files. */
  lemma SetupTrace(m: ModelDefinition, s: State, sequence: string, optics: Optics, loaded: seq<string>)
    requires SetupRule(m, s, sequence, optics, loaded).0.Pass?
    ensures SetupOrder(m, s.trace, SetupRule(m, s, sequence, optics, loaded).1.trace)
  {
    SetupCalls(m, s, sequence, optics, loaded);
    BeamLayout(m, s.trace, SetupRule(m, s, sequence, optics, loaded).1.trace);
  }

  /** After the model's files and the beams, a completed setup calls the
      files of its optics in the order `SetOpticsOrder` gives, starting from
      the optic active before, and leaves the last one active. */
  lemma SetupOptics(m: ModelDefinition, s: State, sequence: string, optics: Optics, loaded: seq<string>)
    requires SetupRule(m, s, sequence, optics, loaded).0.Pass?
    ensures var r := SetupRule(m, s, sequence, optics, loaded);
      var os := OpticNames(optics);
      var n := |s.trace| + |m.initFiles| + |m.sequences|;
      && Loadable(m, s.active.optic, os)
      && n <= |r.1.trace|
      && r.1.trace[n..] == OpticCalls(m, s.active.optic, os)
      && r.1.active.optic == ActiveAt(m, s.active.optic, os, |os|)
  {
    var b := BeamEvents(m, m.sequences);
    var s2 := s.(trace := s.trace + Calls(m.initFiles) + b.0);
    var q := SetSequence(m, s2, sequence, "");
    var o := ApplyOptics(m, q.1, optics);
    assert SetupRule(m, s, sequence, optics, loaded).1 == o.1.(twissCalled := Unmarked(loaded), aperCalled := Unmarked(loaded));
    ApplyOpticsOrder(m, q.1, optics);
    assert q.1.active.optic == s.active.optic && q.1.trace == s2.trace;
    assert |s2.trace| == |s.trace| + |m.initFiles| + |m.sequences|;
    assert o.1.trace[|s2.trace|..] == OpticCalls(m, s.active.optic, OpticNames(optics));
  }

  /** After a completed setup the resolved sequence is active and every
      loaded sequence, and only those, has both marks cleared. */
  lemma SetupMarks(m: ModelDefinition, s: State, sequence: string, optics: Optics, loaded: seq<string>)
    requires SetupRule(m, s, sequence, optics, loaded).0.Pass?
    ensures var r := SetupRule(m, s, sequence, optics, loaded);
      Declared(m, r.1.active.sequence) &&
      r.1.twissCalled.Keys == r.1.aperCalled.Keys == set x | x in loaded &&
      forall x :: !Flag(r.1.twissCalled, x) && !Flag(r.1.aperCalled, x)
  {
    var b := BeamEvents(m, m.sequences);
    var s2 := s.(trace := s.trace + Calls(m.initFiles) + b.0);
    var q := SetSequence(m, s2, sequence, "");
    var o := ApplyOptics(m, q.1, optics);
    assert SetupRule(m, s, sequence, optics, loaded).1 == o.1.(twissCalled := Unmarked(loaded), aperCalled := Unmarked(loaded));
  }

  /** Nothing is marked apertured without being marked twissed. */
  ghost predicate Inv(s: State)
  {
    forall k :: Flag(s.aperCalled, k) ==> Flag(s.twissCalled, k)
  }

  lemma TwissKeepsInv(m: ModelDefinition, s: State, sequence: string, madrange: string, fname: string, use: bool)
    requires Inv(s)
    ensures Inv(TwissRule(m, s, sequence, madrange, fname, use).1)
  {
    TwissEffect(m, s, sequence, madrange, fname, use);
  }

  lemma ApertureKeepsInv(m: ModelDefinition, s: State, sequence: string, madrange: string, fname: string, use: bool)
    requires Inv(s)
    ensures Inv(ApertureRule(m, s, sequence, madrange, fname, use).1)
  {
    var q := SetSequence(m, s, sequence, "");
    if q.0.Pass? {
      var name := q.1.active.sequence;
      if !Flag(q.1.twissCalled, name) {
        assert SetSequence(m, q.1, name, "").1.active.sequence == name;
        TwissKeepsInv(m, q.1, name, "", "", true);
      }
    }
  }

  lemma MatchKeepsInv(m: ModelDefinition, s: State, sequence: string, fname: string, session: Outcome)
    requires Inv(s)
    ensures Inv(MatchRule(m, s, sequence, fname, session).1)
  {
    var q := SetSequence(m, s, sequence, "");
    if q.0.Pass? {
      var t := q.1;
      var ranges := SeqOf(m, t.active.sequence).ranges;
      if t.active.range in ranges {
        var i := RangeInit(m, t, ranges[t.active.range], MatchEntry);
        if i.0.Success? && session.Pass? {
          var u := i.1.(trace := i.1.trace + [MatchRun(t.active.sequence, i.0.value, fname)]);
          TwissKeepsInv(m, u, t.active.sequence, "", "", true);
        }
      }
    }
  }

  lemma SetupKeepsInv(m: ModelDefinition, s: State, sequence: string, optics: Optics, loaded: seq<string>)
    requires Inv(s)
    ensures Inv(SetupRule(m, s, sequence, optics, loaded).1)
  {
  }
}

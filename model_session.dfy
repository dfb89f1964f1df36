/** The `Model` class of src/cern/cpymad/model.py: its active record and the
    two memo dicts are fields the methods update in place, and the calls it
    makes on its `Madx` session are appended to `trace`. Every method is
    proved to leave the state its rule in module ModelRules prescribes. */
module ModelSession {
  import opened Wrappers
  import opened Keyed
  import opened MadxTools
  import opened ModelDef
  import opened ModelRules

  lemma CallsSnoc(files: seq<FileRef>, i: nat)
    requires i < |files|
    ensures Calls(files[..i + 1]) == Calls(files[..i]) + [Call(files[i])]
  {
  }

  lemma AssignsSnoc(table: seq<(string, real)>, value: real, i: nat)
    requires i < |table|
    ensures Assigns(table[..i + 1], value) == Assigns(table[..i], value) + [Assign(table[i].0, table[i].1 * value)]
  {
    var a := Assigns(table[..i + 1], value);
    var b := Assigns(table[..i], value) + [Assign(table[i].0, table[i].1 * value)];
    assert |a| == |b|;
    forall j | 0 <= j < |a| ensures a[j] == b[j] {
      assert table[..i + 1][j] == table[j];
    }
  }

  /** One more sequence: its beam is set, or the missing beam ends the list. */
  lemma BeamEventsStep(m: ModelDefinition, seqs: seq<(string, SeqDef)>, i: nat)
    requires i < |seqs| && BeamEvents(m, seqs[..i]).1 == Pass
    ensures var b := seqs[i].1.beam;
      BeamEvents(m, seqs[..i + 1]) ==
        if b in m.beams then (BeamEvents(m, seqs[..i]).0 + [Beam(m.beams[b])], Pass)
        else (BeamEvents(m, seqs[..i]).0, Fail(KeyError(b)))
  {
    assert seqs[..i + 1][..i] == seqs[..i];
  }

  /** Once a prefix of the sequences lacks its beam, so does the whole list. */
  lemma {:induction false} BeamEventsFailed(m: ModelDefinition, seqs: seq<(string, SeqDef)>, k: nat)
    requires k <= |seqs| && BeamEvents(m, seqs[..k]).1.Fail?
    ensures BeamEvents(m, seqs) == BeamEvents(m, seqs[..k])
    decreases |seqs| - k
  {
    if k < |seqs| {
      assert seqs[..k + 1][..k] == seqs[..k];
      BeamEventsFailed(m, seqs, k + 1);
    } else {
      assert seqs[..k] == seqs;
    }
  }

  class Model {
    const mdef: ModelDefinition
    var active: Active
    var twissCalled: map<string, bool>
    var aperCalled: map<string, bool>
    var trace: seq<Event>

    function StateOf(): State
      reads this
    {
      State(active, twissCalled, aperCalled, trace)
    }

    /** The first part of `__init__`: the session is made quiet and nothing
        is active; `SetupInitial` does the rest. */
    constructor (mdef: ModelDefinition)
      ensures this.mdef == mdef
      ensures StateOf() == State(Active("", "", ""), map[], map[], [Verbose(false)])
    {
      this.mdef := mdef;
      active := Active("", "", "");
      twissCalled := map[];
      aperCalled := map[];
      trace := [Verbose(false)];
    }

    /** The `_call` loop shared by the setup, the optics and the aperture. */
    method CallFiles(files: seq<FileRef>)
      modifies this
      ensures StateOf() == old(StateOf()).(trace := old(trace) + Calls(files))
    {
      for i := 0 to |files|
        invariant StateOf() == old(StateOf()).(trace := old(trace) + Calls(files[..i]))
      {
        trace := trace + [Call(files[i])];
        CallsSnoc(files, i);
      }
      assert files[..|files|] == files;
    }

    method SetRange(madrange: string) returns (r: Outcome)
      modifies this
      ensures (r, StateOf()) == ModelRules.SetRange(mdef, old(StateOf()), madrange)
    {
      var found := Find(mdef.sequences, active.sequence);
      if found.None? {
        return Fail(KeyError(active.sequence));
      }
      var sd := found.value;
      if madrange != "" {
        if madrange !in sd.ranges {
          return Fail(NameError("seq"));
        }
        active := active.(range := madrange);
      } else if active.range == "" {
        active := active.(range := sd.defaultRange);
      }
      return Pass;
    }

    method SetSequence(sequence: string, madrange: string) returns (r: Outcome)
      modifies this
      ensures (r, StateOf()) == ModelRules.SetSequence(mdef, old(StateOf()), sequence, madrange)
    {
      var name := sequence;
      if name == "" {
        if active.sequence == "" {
          active := active.(sequence := mdef.defaultSequence);
        }
        name := active.sequence;
      }
      var found := Find(mdef.sequences, name);
      if found.None? {
        return Fail(KeyError("You tried to activate a non-existing sequence"));
      }
      active := active.(sequence := name);
      if madrange != "" {
        r := SetRange(madrange);
      } else {
        r := SetRange(found.value.defaultRange);
      }
    }

    method GetRangeDict(sequence: string, madrange: string) returns (r: Result<RangeDef>)
      modifies this
      ensures (r, StateOf()) == RangeDict(mdef, old(StateOf()), sequence, madrange)
    {
      if sequence != "" && Find(mdef.sequences, sequence).None? {
        return Failure(ValueError(sequence));
      }
      var name := if sequence == "" then active.sequence else sequence;
      var found := Find(mdef.sequences, name);
      if found.None? {
        return Failure(KeyError(name));
      }
      if madrange != "" {
        var o := SetRange(madrange);
        if o.Fail? {
          return Failure(o.error);
        }
      }
      if active.range !in found.value.ranges {
        return Failure(KeyError(active.range));
      }
      return Success(found.value.ranges[active.range]);
    }

    method GetTwissInitial(sequence: string, madrange: string, name: string) returns (r: Result<Dict>)
      modifies this
      ensures (r, StateOf()) == TwissInitial(mdef, old(StateOf()), sequence, madrange, name)
    {
      var q := GetRangeDict(sequence, madrange);
      if q.Failure? {
        return Failure(q.error);
      }
      var rd := q.value;
      if rd.conditions.None? {
        return Failure(KeyError("twiss-initial-conditions"));
      }
      var conds := rd.conditions.value;
      if name != "" {
        if name !in conds {
          return Failure(ValueError("twiss initial conditions with name " + name + " not found in range " + active.range));
        }
        return Success(conds[name]);
      }
      if rd.defaultTwiss.None? {
        return Failure(KeyError("default-twiss"));
      }
      if rd.defaultTwiss.value !in conds {
        return Failure(KeyError(rd.defaultTwiss.value));
      }
      return Success(conds[rd.defaultTwiss.value]);
    }

    /** The initial conditions of the active range that `p` keeps. */
    method ActiveInit(rd: RangeDef, p: ((string, Value)) -> bool) returns (r: Result<Option<Dict>>)
      modifies this
      ensures (r, StateOf()) == RangeInit(mdef, old(StateOf()), rd, p)
    {
      if rd.conditions.None? {
        return Success(None);
      }
      var i := GetTwissInitial(active.sequence, active.range, "");
      if i.Failure? {
        return Failure(i.error);
      }
      return Success(Some(Keep(i.value, p)));
    }

    method Twiss(sequence: string, madrange: string, fname: string, use: bool) returns (r: Outcome)
      modifies this
      ensures (r, StateOf()) == TwissRule(mdef, old(StateOf()), sequence, madrange, fname, use)
    {
      r := SetSequence(sequence, madrange);
      if r.Fail? {
        return;
      }
      var name := active.sequence;
      if Flag(aperCalled, name) {
        return Fail(ValueError(TwissAfterAperture));
      }
      var ranges := SeqOf(mdef, name).ranges;
      if active.range !in ranges {
        return Fail(KeyError(active.range));
      }
      var rd := ranges[active.range];
      var i := ActiveInit(rd, TruthyEntry);
      if i.Failure? {
        return Fail(i.error);
      }
      trace := trace + [TwissRun(name, rd.span, i.value, fname, use)];
      if madrange == "" {
        twissCalled := twissCalled[name := true];
      }
      return Pass;
    }

    method Survey(sequence: string, madrange: string, fname: string, use: bool) returns (r: Outcome)
      modifies this
      ensures (r, StateOf()) == SurveyRule(mdef, old(StateOf()), sequence, madrange, fname, use)
    {
      r := SetSequence(sequence, "");
      if r.Fail? {
        return;
      }
      var name := active.sequence;
      if madrange == "" {
        trace := trace + [SurveyRun(name, None, fname, use)];
        return Pass;
      }
      var d := GetRangeDict(name, madrange);
      if d.Failure? {
        return Fail(d.error);
      }
      trace := trace + [SurveyRun(name, Some(d.value.span), fname, use)];
      return Pass;
    }

    method Aperture(sequence: string, madrange: string, fname: string, use: bool) returns (r: Outcome)
      modifies this
      ensures (r, StateOf()) == ApertureRule(mdef, old(StateOf()), sequence, madrange, fname, use)
    {
      r := SetSequence(sequence, "");
      if r.Fail? {
        return;
      }
      var name := active.sequence;
      if !Flag(twissCalled, name) {
        r := Twiss(name, "", "", true);
        if r.Fail? {
          return;
        }
      }
      ghost var t := StateOf();
      if name !in aperCalled {
        return Fail(KeyError(name));
      }
      if !aperCalled[name] {
        CallFiles(SeqOf(mdef, name).aperfiles);
        aperCalled := aperCalled[name := true];
      }
      assert StateOf() == LoadAperture(mdef, t, name);
      if madrange == "" {
        trace := trace + [ApertureRun(name, None, None, fname, use)];
        return Pass;
      }
      var d := GetRangeDict(name, madrange);
      if d.Failure? {
        return Fail(d.error);
      }
      trace := trace + [ApertureRun(name, Some(d.value.span), d.value.aperOffset, fname, use)];
      return Pass;
    }

    /** `match(constraints, vary, weight, method, sequence, fname)`; the
        matching arguments go to the session unchanged and are not part of
        the run recorded here. `session` is the outcome of the session's
        `match`, which ends this call when it fails. */
    method Match(sequence: string, fname: string, session: Outcome) returns (r: Outcome)
      modifies this
      ensures (r, StateOf()) == MatchRule(mdef, old(StateOf()), sequence, fname, session)
    {
      r := SetSequence(sequence, "");
      if r.Fail? {
        return;
      }
      var name := active.sequence;
      var ranges := SeqOf(mdef, name).ranges;
      if active.range !in ranges {
        return Fail(KeyError(active.range));
      }
      var i := ActiveInit(ranges[active.range], MatchEntry);
      if i.Failure? {
        return Fail(i.error);
      }
      if session.Fail? {
        return session;
      }
      trace := trace + [MatchRun(name, i.value, fname)];
      r := Twiss(name, "", "", true);
    }

    method SetOptic(optic: string) returns (r: Outcome)
      modifies this
      ensures (r, StateOf()) == ModelRules.SetOptic(mdef, old(StateOf()), optic)
    {
      var o := optic;
      if o == "" {
        o := mdef.defaultOptic;
      }
      if active.optic == o {
        return Pass;
      }
      if o !in mdef.optics {
        return Fail(KeyError(o));
      }
      CallFiles(mdef.optics[o].initFiles);
      active := active.(optic := o);
      return Pass;
    }

    method SetKnob(knob: string, value: real) returns (r: Outcome)
      modifies this
      ensures (r, StateOf()) == ModelRules.SetKnob(mdef, old(StateOf()), knob, value)
    {
      if knob !in mdef.knobs {
        return Fail(KeyError(knob));
      }
      var table := mdef.knobs[knob];
      for i := 0 to |table|
        invariant StateOf() == old(StateOf()).(trace := old(trace) + Assigns(table[..i], value))
      {
        trace := trace + [Assign(table[i].0, table[i].1 * value)];
        AssignsSnoc(table, value, i);
      }
      assert table[..|table|] == table;
      return Pass;
    }

    /** `_init_sequence` for every sequence of the model, in order. */
    method InitSequences() returns (r: Outcome)
      modifies this
      ensures var b := BeamEvents(mdef, mdef.sequences);
        r == b.1 && StateOf() == old(StateOf()).(trace := old(trace) + b.0)
    {
      var seqs := mdef.sequences;
      for i := 0 to |seqs|
        invariant BeamEvents(mdef, seqs[..i]).1 == Pass
        invariant StateOf() == old(StateOf()).(trace := old(trace) + BeamEvents(mdef, seqs[..i]).0)
      {
        BeamEventsStep(mdef, seqs, i);
        var bname := seqs[i].1.beam;
        if bname !in mdef.beams {
          BeamEventsFailed(mdef, seqs, i + 1);
          return Fail(KeyError(bname));
        }
        trace := trace + [Beam(mdef.beams[bname])];
      }
      assert seqs[..|seqs|] == seqs;
      return Pass;
    }

    method SetOptics(optics: Optics) returns (r: Outcome)
      modifies this
      ensures (r, StateOf()) == ApplyOptics(mdef, old(StateOf()), optics)
    {
      match optics
      case OneOptic(o) =>
        r := SetOptic(o);
      case OpticList(os) =>
        for i := 0 to |os|
          invariant (Pass, StateOf()) == ModelRules.SetOptics(mdef, old(StateOf()), os[..i])
        {
          assert os[..i + 1][..i] == os[..i];
          r := SetOptic(os[i]);
          if r.Fail? {
            SetOpticsFailed(mdef, old(StateOf()), os, i + 1);
            return;
          }
        }
        assert os[..|os|] == os;
        r := Pass;
      case NoOptics =>
        r := Pass;
    }

    /** The rest of `__init__`: `_setup_initial(sequence, optics)`, with
        `loaded` the names of the sequences the engine reports. */
    method SetupInitial(sequence: string, optics: Optics, loaded: seq<string>) returns (r: Outcome)
      modifies this
      ensures (r, StateOf()) == SetupRule(mdef, old(StateOf()), sequence, optics, loaded)
    {
      CallFiles(mdef.initFiles);
      r := InitSequences();
      if r.Fail? {
        return;
      }
      r := SetSequence(sequence, "");
      if r.Fail? {
        return;
      }
      r := SetOptics(optics);
      if r.Fail? {
        return;
      }
      ResetMarks(loaded);
    }

    /** The end of `_setup_initial`: fresh memo dicts in which every loaded
        sequence is neither twissed nor apertured. */
    method ResetMarks(loaded: seq<string>)
      modifies this
      ensures StateOf() == old(StateOf()).(twissCalled := Unmarked(loaded), aperCalled := Unmarked(loaded))
    {
      aperCalled := map[];
      twissCalled := map[];
      for i := 0 to |loaded|
        invariant aperCalled == twissCalled == map n | n in loaded[..i] :: false
        invariant active == old(active) && trace == old(trace)
      {
        assert loaded[..i + 1] == loaded[..i] + [loaded[i]];
        aperCalled := aperCalled[loaded[i] := false];
        twissCalled := twissCalled[loaded[i] := false];
      }
      assert loaded[..|loaded|] == loaded;
    }
  }
}

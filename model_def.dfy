/** The model definition `Model` works from (the parsed model data of
    src/cern/cpymad/model.py) and the calls it makes on its `Madx` session,
    recorded as events. */
module ModelDef {
  import opened Wrappers
  import opened Keyed
  import opened MadxTools

  /** A file entry of the model data; the model locator resolves it to a
      path. */
  type FileRef = string

  /** A range's `madx-range`: first and last element. */
  datatype Span = Span(first: string, last: string)

  /** One entry of a sequence's `ranges`. The optional keys are `Option`s. */
  datatype RangeDef = RangeDef(
    span: Span,
    conditions: Option<map<string, Dict>>,  // 'twiss-initial-conditions'
    defaultTwiss: Option<string>,           // 'default-twiss'
    aperOffset: Option<FileRef>)            // 'aper-offset'

  /** One entry of `sequences`. */
  datatype SeqDef = SeqDef(beam: string, defaultRange: string, ranges: map<string, RangeDef>, aperfiles: seq<FileRef>)

  /** One entry of `optics`. */
  datatype OpticDef = OpticDef(initFiles: seq<FileRef>)

  /** The model definition. `sequences` keeps the order of the model data:
      beams are set in that order. A knob maps element names to the factor
      its value is scaled by. */
  datatype ModelDefinition = ModelDefinition(
    initFiles: seq<FileRef>,
    sequences: seq<(string, SeqDef)>,
    defaultSequence: string,
    optics: map<string, OpticDef>,
    defaultOptic: string,
    beams: map<string, Dict>,
    knobs: map<string, seq<(string, real)>>)

  /** What `Model` asks of its `Madx` session, in order. The columns,
      patterns and match arguments the model passes through untouched are
      not recorded. */
  datatype Event =
    | Verbose(on: bool)
    | Call(file: FileRef)
    | Beam(beam: Dict)
    | Assign(name: string, value: real)
    | TwissRun(sequence: string, span: Span, init: Option<Dict>, fname: string, use: bool)
    | SurveyRun(sequence: string, part: Option<Span>, fname: string, use: bool)
    | ApertureRun(sequence: string, part: Option<Span>, offsets: Option<FileRef>, fname: string, use: bool)
    | MatchRun(sequence: string, init: Option<Dict>, fname: string)

  /** `self._active`. */
  datatype Active = Active(optic: string, sequence: string, range: string)

  /** Everything a `Model` call can change: the active record, the two memo
      maps and the calls made so far. */
  datatype State = State(active: Active, twissCalled: map<string, bool>, aperCalled: map<string, bool>, trace: seq<Event>)

  /** `memo.get(k)` taken as a truth value. */
  predicate Flag(memo: map<string, bool>, k: string)
  {
    k in memo && memo[k]
  }

  predicate Declared(m: ModelDefinition, name: string)
  {
    HasKey(m.sequences, name)
  }

  /** `self._mdef['sequences'][name]`. */
  function SeqOf(m: ModelDefinition, name: string): (sd: SeqDef)
    requires Declared(m, name)
    ensures (name, sd) in m.sequences
  {
    Find(m.sequences, name).value
  }

  /** One `_call` per file, in order. */
  function Calls(files: seq<FileRef>): seq<Event>
  {
    seq(|files|, i requires 0 <= i < |files| => Call(files[i]))
  }

  /** The assignments of `set_knob`: each element's factor times `value`. */
  function Assigns(table: seq<(string, real)>, value: real): seq<Event>
  {
    seq(|table|, i requires 0 <= i < |table| => Assign(table[i].0, table[i].1 * value))
  }
}

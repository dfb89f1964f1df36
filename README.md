# cpymad core, modelled in Dafny

This project models the two layers of cpymad that drive the MAD-X engine.

**The session layer** is `Madx` in `src/cern/cpymad/madx.py`:
- the command builders for `select`, `twiss` and `matchcommand`;
- the choice of a free temporary file name;
- logging each command to history before it goes to the engine;
- each command's effect on a session made of a history and engine log, the engine's current sequence, and the set of existing files;
- `use` being issued only when the current sequence changes;
- removing the temporary file of `survey` and `match`.

**The model layer** is `Model` in `src/cern/cpymad/model.py`, as a state machine:
- the active optic, sequence and range;
- the two per-sequence memo maps `_twisscalled` and `_apercalled`;
- the calls `Model` makes on its session, recorded as a trace of events.

Every operation is a pure transition rule in `ModelRules`. The methods of the class `ModelSession.Model` implement the rules imperatively and are proved equal to them. The lemmas about the rules state what the operations promise:
- name resolution and the error raised for each bad input;
- the ordering rules (aperture forces a twiss first, aperture files are called once, twiss after aperture is refused before reaching the engine);
- the order of the setup calls, and the optics applied in list order;
- the invariant that a sequence is never marked apertured without being marked twissed.

Modules, in dependency order:
- `Wrappers`: option, the error kinds, results and outcomes.
- `Strings`: lexicographic order, decimal rendering and lower case.
- `Keyed`: Python dicts as association lists, and sorting by key.
- `MadxTools`: parameter values as already-rendered text, and the statement syntax `name, key=value, flag;` that `_mad_command` produces.
- `MadxCommands`: the command builders.
- `MadxSession`: the `Madx` session class and its rules.
- `ModelDef`: the model definition and the event trace.
- `ModelRules`: the `Model` rules.
- `ModelSession`: the `Model` class.

The engine is a parameter. A `Config.accepts` predicate stands for `_checkCommand`. A `use` command the engine accepts makes that sequence its current one. The `survey` and `match` commands are taken to write the file they name, whether or not `accepts` lets them through (`MadxSession.Output`). The files that exist are a set passed in. The model definition is a value (`ModelDef.ModelDefinition`).

Where the code and its documented behaviour differ, the model follows the code:
- `set_range` with an unknown range name formats its message with an undefined name `seq`. The call therefore ends in `NameError`, not the documented `KeyError`; `SetRange` returns `NameError("seq")`.
- `set_sequence` with an undeclared name raises a `KeyError` whose message does not name the sequence.
- An empty `sequence` with no active one stores `default-sequence` in `_active` before the check. A failing call can therefore change the active sequence.
- `_get_range_dict` with a range name calls `set_range`, which looks the range up in the active sequence, not in the one passed. `RangeDict` states the result only when the lookups agree.
- `_setup_initial` clears the memo flags of the sequences the engine reports as loaded, not of the declared ones. The loaded names are a parameter.
- `twiss` with `chrom` and an empty range text gives `twiss, sequence=S,,chrom`. The comma that is stripped is only a trailing one (`TwissHeadShape`).
- A vary list of names and a vary mapping of name to step do not give equivalent lines: a name in a list gets no `step`.
- `matchcommand` documents that a vary-list entry that is not a list or dict "is taken to be the NAME". The code takes only a string as a name and hands any other entry to `_mad_command_unpack`. For a scalar, such as a number, that helper raises `TypeError`, which the mapping branch relies on when it catches that error. The model follows the code: such an entry (`VaryEntry.Scalar`) makes `matchcommand` fail with `UnpackError("vary")`, a `TypeError`.

## Model

| member | source | states |
|---|---|---|
| MadxCommands.TmpFilename | src/cern/cpymad/madx.py:61-70 | the result is not an existing file and is the first of `op+suffix`, `op.0+suffix`, `op.1+suffix`, … that is free (every earlier candidate exists); the loop terminates because the existing files are a finite set |
| MadxCommands.CandidateInjective | src/cern/cpymad/madx.py:65-68 | different counters give different candidate names, so the search never revisits a name |
| MadxCommands.SelectOrder | src/cern/cpymad/madx.py:168-176 | `select` issues `2 + |pattern|` commands: the `CLEAR` line first, exactly one `COLUMN=` line (list columns joined by `, `) second, then one `PATTERN=` line per pattern in input order |
| MadxSession.Madx.Select | src/cern/cpymad/madx.py:168-176 | the session after `select` is the one left by issuing exactly those commands in order |
| MadxSession.Madx.IssuePatterns | src/cern/cpymad/madx.py:175-176 | the pattern loop issues one command per pattern in order |
| MadxSession.SelectNotUse | src/cern/cpymad/madx.py:168-176 | no select command is a `use` |
| MadxCommands.TwissHeadText | src/cern/cpymad/madx.py:212-218 | the loop-free head of the twiss command equals the head text with the file field appended |
| MadxCommands.OpticsFieldsText | src/cern/cpymad/madx.py:219-221 | the loop over betx/bety/alfx/alfy appends `,key=value` for each non-None value, in order |
| MadxCommands.InitFieldsText | src/cern/cpymad/madx.py:222-228 | the loop over `twiss_init` appends one field per entry in order |
| MadxCommands.TwissCommand | src/cern/cpymad/madx.py:212-228 | `_tmpcmd` is the head, the file field, the optics fields and the init fields |
| MadxCommands.TwissFrame | src/cern/cpymad/madx.py:212-229 | the issued twiss command starts `twiss, sequence=<seq>` and ends in `;` |
| MadxCommands.TwissHeadShape | src/cern/cpymad/madx.py:212-216 | `,chrom` ends the head iff `chrom` is true; without it a non-empty range ends the head and an empty one leaves no trailing comma |
| MadxCommands.TwissFile | src/cern/cpymad/madx.py:217-218 | a non-empty `fname` puts `, file="<fname>"` directly after the head; an empty one puts nothing there |
| MadxCommands.InitFieldsSkipReserved | src/cern/cpymad/madx.py:222-228 | the initial conditions `name` and `closed-orbit` contribute nothing: removing them does not change the text |
| MadxCommands.InitFieldsAppend | src/cern/cpymad/madx.py:223-228 | a further non-reserved entry adds `,key` when its value is `True` and `,key=value` otherwise |
| MadxSession.TwissCommandsShape | src/cern/cpymad/madx.py:206-229 | `Madx.twiss` issues the select commands, the format, at most one `use` (exactly when `use` and a sequence are given, just before the last command), and last the twiss command of the given sequence, or of the current one when none is given |
| MadxSession.TwissCurrent | src/cern/cpymad/madx.py:206-212 | after `Madx.twiss` the engine's current sequence changed only when a `use` was issued and accepted |
| MadxSession.Madx.Twiss | src/cern/cpymad/madx.py:206-229 | the session after the call is the one left by issuing exactly the twiss command list |
| MadxCommands.MergeInto | src/cern/cpymad/madx.py:361-365 | the loop stores each non-None optics argument into `twiss_init` |
| MadxCommands.MergeOpticsArgs | src/cern/cpymad/madx.py:361-365 | after the merge every non-None betx/bety/alfx/alfy is present with its value, other initial conditions are kept, and nothing else is added |
| MadxCommands.HeaderHoldsOptics | src/cern/cpymad/madx.py:361-368 | the `match` header names the sequence first and carries every non-None optics argument |
| MadxCommands.ConstraintText | src/cern/cpymad/madx.py:372-373 | the constraint loop emits one unpacked `constraint` statement per constraint, in order |
| MadxCommands.VaryMapText | src/cern/cpymad/madx.py:377-381 | the vary-mapping loop emits one statement per sorted item |
| MadxCommands.VaryListText | src/cern/cpymad/madx.py:382-387 | the vary-list loop emits one statement per entry when no entry is a scalar, and otherwise fails with the `TypeError` of unpacking a scalar |
| MadxCommands.VaryText | src/cern/cpymad/madx.py:376-389 | the VARY part is the text of the vary statements, or the `TypeError` of a vary of the wrong kind or of a scalar list entry |
| MadxCommands.VaryMapOrder | src/cern/cpymad/madx.py:376-381 | a vary mapping gives one statement per key in sorted key order; a structured value is unpacked with `name=<key>` after its own entries; a scalar gives `name=<key>, step=<v>`; every item is represented |
| MadxCommands.VaryListOrder | src/cern/cpymad/madx.py:382-387 | a vary list succeeds exactly when no entry is a scalar, and otherwise fails with the unpacking `TypeError`; on success it gives one statement per entry in caller order, `vary, name=<s>` for a string |
| MadxCommands.VaryMapDeterministic | src/cern/cpymad/madx.py:376-381 | two vary mappings with the same items give the same statements, whatever their insertion order |
| MadxCommands.MatchShape | src/cern/cpymad/madx.py:367-403 | the statements are the `match` header, one `constraint` per constraint in order, the vary statements, a `weight` only when the weight is truthy, the method, and `endmatch` last; `matchcommand` fails exactly when the vary is neither a list nor a mapping, giving `TypeError("vary must be list or dict.")`, or when it is a list with a scalar entry, giving the unpacking `TypeError`; this covers the inputs the types admit (see "## Left out") |
| MadxCommands.TailText | src/cern/cpymad/madx.py:391-402 | the weight, method and endmatch parts in that order, `knobfile=` iff `fname` is non-empty |
| MadxCommands.MatchCommand | src/cern/cpymad/madx.py:361-403 | `matchcommand` returns the rendered statement group, or the same `TypeError`s |
| MadxCommands.ExampleMapTail | src/cern/cpymad/madx.py:391-402 | an empty weight gives no statement, the default method gives `lmdif`, and a file name gives `endmatch, knobfile=<fname>` |
| MadxCommands.MatchExampleList | src/cern/cpymad/madx.py:331-345 | the first documented call gives the eight documented statements |
| MadxCommands.MatchExampleListText | src/cern/cpymad/madx.py:331-345 | …and they render as the documented lines, such as `constraint, bety<3;` |
| MadxCommands.MatchExampleMap | src/cern/cpymad/madx.py:347-358 | the second documented call gives the six documented statements, with `K1` before `K2` |
| MadxCommands.MatchExampleMapText | src/cern/cpymad/madx.py:347-358 | …and they render as the documented lines, ending `lmdif;` and `endmatch, knobfile=knobs.txt;` |
| MadxSession.HistLine | src/cern/cpymad/madx.py:129-133 | the history line is the command, newline-terminated, with one newline added only when it is missing |
| MadxSession.SingleCmdEffect | src/cern/cpymad/madx.py:128-136 | `_single_cmd` appends the history line first (when history is on), then the engine input (only when the check accepts the lowered command); nothing else changes |
| MadxSession.Madx.SingleCmd | src/cern/cpymad/madx.py:128-136 | returns 0 (`Pass`); an empty command with history on fails with the `IndexError` of `cmd[-1]` |
| MadxSession.UseCommand | src/cern/cpymad/madx.py:294-295 | `use` issues a command that names exactly that sequence |
| MadxSession.Madx.Use | src/cern/cpymad/madx.py:294-295 | the session after `use` is the one left by issuing that command |
| MadxSession.Madx.SetSequence | src/cern/cpymad/madx.py:495-498 | setting the current sequence issues nothing; any other name issues exactly one `use, sequence=<name>;` |
| MadxSession.SetSequenceIdempotent | src/cern/cpymad/madx.py:495-498 | after the setter the engine's current sequence is the name, and the only engine input issued is that `use` |
| MadxSession.TempFileRule | src/cern/cpymad/madx.py:251-260 | with no `fname` the temporary file is removed, that removal is the only log entry added, and the files are as before; with one the output file is kept (the engine being taken to write it) and nothing is logged |
| MadxSession.Madx.Survey | src/cern/cpymad/madx.py:251-260 | the output goes to `fname` or to a fresh `survey.temp.tfs` name, which is removed afterwards |
| MadxSession.Madx.Match | src/cern/cpymad/madx.py:431-448 | the knob file is `fname` or a fresh `match` name; a `TypeError` changes nothing; otherwise the group is issued, and the temporary knob file is removed only when no `fname` was given |
| MadxSession.Madx.constructor | src/cern/cpymad/madx.py:97-105 | history is on iff a history file or a history base is given; with a base only, the file is a fresh name from `_tmp_filename(base, '.madx')` |
| ModelRules.SetRange | src/cern/cpymad/model.py:129-143 | only the active range may change; an unknown non-empty range fails (with `NameError`) and changes nothing; `''` keeps a set range and sets the default otherwise; an undeclared active sequence gives `KeyError` |
| ModelRules.SetRangeDefaultIdempotent | src/cern/cpymad/model.py:141-143 | `set_range('')` twice equals once |
| ModelSession.Model.SetRange | src/cern/cpymad/model.py:129-143 | the method's outcome and new state are those of the rule |
| ModelRules.SetSequence | src/cern/cpymad/model.py:112-127 | an empty name resolves to the active sequence, or to `default-sequence` when none is active; an undeclared name gives `KeyError` and leaves the range as it was; a declared one becomes active and succeeds iff its range (the given one or its `default-range`) is valid; only the sequence and range change |
| ModelRules.SetSequenceIdempotent | src/cern/cpymad/model.py:112-127 | a successful `set_sequence` repeated changes nothing more |
| ModelSession.Model.SetSequence | src/cern/cpymad/model.py:112-127 | the method's outcome and new state are those of the rule |
| ModelRules.RangeDict | src/cern/cpymad/model.py:513-526 | an undeclared non-empty sequence gives `ValueError` with no change; a result is the active range's entry of that sequence, and a given range becomes the active one |
| ModelSession.Model.GetRangeDict | src/cern/cpymad/model.py:513-526 | the method's result and new state are those of the rule |
| ModelRules.TwissInitial | src/cern/cpymad/model.py:317-329 | the named conditions, or the `default-twiss` ones when no name is given; an unknown name gives the ValueError naming it and the active range; no conditions give `KeyError('twiss-initial-conditions')` |
| ModelSession.Model.GetTwissInitial | src/cern/cpymad/model.py:317-329 | the method's result and new state are those of the rule |
| ModelRules.Keep | src/cern/cpymad/model.py:368-371 | the filtered dict holds exactly the entries that pass the test |
| ModelRules.RangeInit | src/cern/cpymad/model.py:366-373 | no conditions in the range give `None`; otherwise the default conditions filtered by the test, or the lookup's error |
| ModelSession.Model.ActiveInit | src/cern/cpymad/model.py:366-373 | the method's result and new state are those of the rule |
| ModelRules.TwissRule | src/cern/cpymad/model.py:352-387 | a failed twiss changes neither trace nor marks; a completed one leaves the resolved sequence active and marks it twissed only when no range was given |
| ModelRules.TwissEffect | src/cern/cpymad/model.py:352-387 | a completed twiss adds exactly one twiss run of the active range's span; its initial conditions are `None` exactly when the range has no `twiss-initial-conditions`, and otherwise exactly the entries of `_get_twiss_initial(sequence, range)` with a true value (zero is dropped) |
| ModelRules.TwissInitTruthy | src/cern/cpymad/model.py:366-371 | every initial condition `twiss` passes on is a true value |
| ModelRules.TwissRefusedAfterAperture | src/cern/cpymad/model.py:360-361 | on an apertured sequence twiss fails with the documented ValueError and reaches no engine |
| ModelSession.Model.Twiss | src/cern/cpymad/model.py:332-387 | the method's outcome and new state are those of the rule |
| ModelRules.SurveyRule | src/cern/cpymad/model.py:403-416 | a completed survey adds one survey run of the resolved sequence, with the given range's span when a range is given and none otherwise; the marks never change, and a failure adds nothing |
| ModelSession.Model.Survey | src/cern/cpymad/model.py:389-416 | the method's outcome and new state are those of the rule |
| ModelRules.ApertureAfterTwiss | src/cern/cpymad/model.py:438-463 | after the forced twiss, only the sequence's aperture mark may change, and on success it is set |
| ModelRules.ApertureMarks | src/cern/cpymad/model.py:433-442 | a completed aperture leaves the sequence active and marked both twissed and apertured |
| ModelRules.ApertureTwissesFirst | src/cern/cpymad/model.py:433-463 | on a fresh sequence aperture issues one twiss run, then the aperture files in order, then the aperture run |
| ModelRules.ApertureSteps | src/cern/cpymad/model.py:433-463 | for any marks and any range: a twiss run of the sequence comes first exactly when it is not marked twissed; then its aperture files exactly when it is not marked apertured; then the aperture run, with the span and offsets of the given range, or none without a range |
| ModelRules.ApertureOnce | src/cern/cpymad/model.py:439-442 | a second aperture on the same sequence issues only the aperture run: no twiss, no files |
| ModelRules.NoTwissAfterAperture | src/cern/cpymad/model.py:360-361 | after an aperture, a twiss of the same sequence fails and adds nothing to the trace |
| ModelSession.Model.Aperture | src/cern/cpymad/model.py:418-463 | the method's outcome and new state are those of the rule |
| ModelRules.MatchEffect | src/cern/cpymad/model.py:480-508 | a completed match adds a matching run, then a twiss run of the same sequence, and marks it twissed; the matching run's initial conditions are `None` exactly when the range has none, and otherwise exactly the entries of `_get_twiss_initial(sequence, range)` whose key `is_match_param` accepts |
| ModelRules.MatchStopsOnSession | src/cern/cpymad/model.py:500-508 | when the session's `match` fails, `match` fails, records no run and changes no mark, so the twiss after it is not run; where the rest of the call would have passed, the error is the session's |
| ModelSession.Model.Match | src/cern/cpymad/model.py:466-508 | the method's outcome and new state are those of the rule |
| ModelRules.SetOpticEffect | src/cern/cpymad/model.py:241-269 | `''` means `default-optic`; the active optic is a no-op; an unknown optic gives `KeyError` with no change; otherwise its files are called in order and it becomes active, nothing else changing |
| ModelRules.SetOpticIdempotent | src/cern/cpymad/model.py:250-254 | a successful `set_optic` repeated changes nothing |
| ModelSession.Model.SetOptic | src/cern/cpymad/model.py:241-269 | the method's outcome and new state are those of the rule |
| ModelRules.SetKnobEffect | src/cern/cpymad/model.py:271-275 | one assignment `scale * value` per entry of the knob's table, in order, and nothing else; an unknown knob gives `KeyError` |
| ModelSession.Model.SetKnob | src/cern/cpymad/model.py:271-275 | the method's outcome and new state are those of the rule |
| ModelRules.SetOptics | src/cern/cpymad/model.py:159-161 | applying a list of optics only calls files |
| ModelRules.SetOpticsOrder | src/cern/cpymad/model.py:159-161 | a list of optics completes exactly when each name, at its turn, is the active optic or a defined one; it then calls, in list order, the init files of each optic that was not active at its turn (`OpticCalls`, defined first name first), and leaves the last name, resolved, active |
| ModelRules.ApplyOptics | src/cern/cpymad/model.py:157-161 | applying one optic or a list only calls files |
| ModelRules.ApplyOpticsOrder | src/cern/cpymad/model.py:156-161 | a name is set as a one-name list, a list name by name as `SetOpticsOrder` states, and anything else sets nothing |
| ModelSession.Model.SetOptics | src/cern/cpymad/model.py:157-161 | the method's outcome and new state are those of the rule, stopping at the first failure |
| ModelRules.BeamEvents | src/cern/cpymad/model.py:152-154 | one beam per declared sequence in order; completes iff every beam reference is defined; otherwise stops at the first undefined one with its `KeyError` |
| ModelSession.Model.InitSequences | src/cern/cpymad/model.py:152-154 | the method's outcome and new trace are those of `BeamEvents` |
| ModelSession.Model.CallFiles | src/cern/cpymad/model.py:149-150 | one call per file, in order, and nothing else |
| ModelRules.Unmarked | src/cern/cpymad/model.py:163-167 | the marks cover exactly the loaded sequences, all false |
| ModelSession.Model.ResetMarks | src/cern/cpymad/model.py:163-167 | both marks become `Unmarked` of the loaded sequences |
| ModelRules.SetupTrace | src/cern/cpymad/model.py:145-161 | a completed setup calls the model's files first, then sets one beam per declared sequence in order, then only calls files |
| ModelRules.SetupOptics | src/cern/cpymad/model.py:145-161 | after the model's files and one beam per sequence, a completed setup calls exactly the files `OpticCalls` gives for its optics, starting from the optic active before, and leaves the last one active |
| ModelRules.SetupMarks | src/cern/cpymad/model.py:145-167 | after setup a declared sequence is active, and every loaded sequence, and only those, has both marks false |
| ModelSession.Model.SetupInitial | src/cern/cpymad/model.py:145-167 | the method's outcome and new state are those of the rule |
| ModelSession.Model.constructor | src/cern/cpymad/model.py:85-98 | a new model has issued `verbose(False)` and has an empty active record |
| ModelRules.TwissKeepsInv | src/cern/cpymad/model.py:352-387 | twiss keeps "apertured implies twissed" |
| ModelRules.ApertureKeepsInv | src/cern/cpymad/model.py:433-463 | aperture keeps the invariant |
| ModelRules.MatchKeepsInv | src/cern/cpymad/model.py:480-508 | match keeps the invariant |
| ModelRules.SetupKeepsInv | src/cern/cpymad/model.py:145-167 | setup keeps the invariant |
| Keyed.Insert | src/cern/cpymad/madx.py:377 | one insertion step of the key sort keeps the items and keeps a sorted list sorted |
| Keyed.SortByKeyDeterministic | src/cern/cpymad/madx.py:377 | the sorted items of a dict do not depend on its insertion order |
| Strings.NatToStringInjective | src/cern/cpymad/madx.py:68 | distinct counters render as distinct decimal text |

## Left out

- The engine, libmadx and the RPC subprocess are not modelled: they are foreign code. The engine is the `accepts` predicate, the rule that an accepted `use` makes a sequence current, and the assumption that `survey` and `match` always write the file they name, even when `accepts` rejects the command. A missing output file, and the error `_get_dict`, `_read_knobfile` or `os.remove` would then raise, are therefore not modelled.
- MadxSession.TempFileRule, MadxSession.Madx.Survey, MadxSession.Madx.Match: the files afterwards being those before plus `fname` rests on the engine writing the output file (`Output`); a rejected command that writes nothing is not modelled.
- `_madx_tools` is not part of this model. Only the statement syntax pinned down by the documented `matchcommand` examples is modelled (`MadxTools`). `_fixcmd` is left out, and `_checkCommand` is the `accepts` parameter.
- `_add_range` and `_add_offsets` are left out: the range text is a parameter.
- Python's `str` of a float is left out: values are already-rendered text (`Num`), with a flag for Python falsiness.
- Python 2 dict iteration order is left out: dicts keep insertion order, and a mapping is emitted in sorted key order through `SortByKey`.
- MadxCommands.MatchShape, MadxCommands.MatchCommand, MadxSession.Madx.Match: a `constraints` argument that is not a sequence, which fails the `assert` at madx.py:371 with `AssertionError`, is outside the types. So are a constraint, a weight or a method option that is neither a list nor a mapping, for which `_mad_command_unpack` would raise `TypeError`. The docstring (madx.py:319-320) requires each constraint to be a list or dict. Only a scalar vary-list entry, which the docstring admits, is modelled as failing.
- ModelRules.MatchRule, ModelSession.Model.Match: the session's `match` is not called from the model layer. Its outcome is the parameter `session`, and the constraints and vary behind it are not recorded.
- MadxCommands.MatchCommand: a weight of `None` is modelled as an empty group; both are false. The aliasing of `twiss_init` that `matchcommand` updates in place is left out.
- Strings.Lower lowers ASCII letters only. Unicode case mapping is left out.
- The history file itself is left out: a history line is an entry of the session log. Recursive history (`_writeHist` opening called files) is not modelled. File I/O, `os.remove` and the `sys.flags.debug` print are only entries of the log.
- `help`, `verbose` and `call` are left out; `verbose(False)` at construction is a `Verbose` event. `call`'s probing for `.madx`/`.mad` files is left out, and so is `Model.call`'s `ValueError` for a missing file. A file reference is called as given.
- `Madx.aperture` is not modelled in the session layer; the model layer records an aperture run event.
- `_get_table`, `TfsTable`/`TfsSummary`, `retdict`, `_get_dict` and `_read_knobfile` are left out. A run is an event, and its result is not modelled.
- ModelRules.SurveyRule, ModelRules.TwissRule, ModelRules.MatchRule: columns, patterns, and constraints/vary/weight/method are passed through by `Model` untouched and are not recorded in the events.
- The `ModelData` locator, `from_name`, `get_by_dict` and temporary offset files are left out. An aperture offset reference is recorded as given.
- ModelRules.SetKnob: `scale * value` is real arithmetic. Float rounding is left out.
- `sequences` is an association list with distinct names, mirroring the dict's iteration order in `_setup_initial`.
- ModelRules.ApplyOptics: an `optics` argument that is neither a string nor a list applies nothing (`NoOptics`), as in the code.
- ModelRules.ApertureMarks, ModelRules.ApertureSteps, ModelRules.ApertureOnce, ModelRules.NoTwissAfterAperture: stated for a named sequence. A sequence called `''` cannot be told apart from "no sequence given".
- ModelRules.RangeDict: the result for an explicit sequence with a range name is the entry of the active range. It is stated only where the lookups agree, not for the `KeyError` of a range missing from the passed sequence.
- `save_model`, logging, and the queries `name`, `mdef`, `has_sequence`, `has_optics`, `list_optics`, `list_ranges`, `list_beams`, `get_sequences` and `evaluate` are left out: they are I/O or plain lookups.
- Knob application from an optic definition is commented out in `set_optic` and is not modelled.

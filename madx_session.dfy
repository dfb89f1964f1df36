/** The `Madx` session object of src/cern/cpymad/madx.py as far as it decides
    what reaches the history file, the engine and the file system: the
    history/engine hand-off of `_single_cmd`, `use` and the `sequence`
    setter, and the command sequences of `select`, `twiss`, `survey` and
    `match` with their temporary-file rule.

    The engine is opaque. It is represented by the commands it receives
    (the `Input` entries of the log) and by its current sequence, which a
    received `use, sequence=<name>;` makes `<name>`; the `survey` and
    `match` commands are taken to write the file they name. */
module MadxSession {
  import opened Wrappers
  import opened Strings
  import opened MadxTools
  import opened MadxCommands

  /** One observable effect of a session, in the order it happens. */
  datatype Entry =
    | Hist(line: string)     // a line written to the history file
    | Input(cmd: string)     // a command handed to the engine
    | Remove(path: string)   // `os.remove(path)`

  /** The fixed part of a session: whether history is kept, and the
      `_checkCommand` filter applied to the lower-cased command before it
      reaches the engine (that filter is not part of this model). */
  datatype Config = Config(hist: bool, accepts: string -> bool)

  /** The changing part: the effects so far, the engine's current sequence
      and the files known to exist. */
  datatype Sink = Sink(log: seq<Entry>, current: string, files: set<string>)

  const UsePrefix: string := "use, sequence="

  /** The `set` command `twiss` and `survey` issue before their own. */
  const SetFormat: string := "set, format=\"12.6F\";"

  /** The sequence a command makes current, when it is a `use` command. */
  function UseTarget(cmd: string): Option<string>
  {
    if StartsWith(cmd, UsePrefix) && |cmd| > |UsePrefix| && cmd[|cmd| - 1] == ';' then
      Some(cmd[|UsePrefix|..|cmd| - 1])
    else None
  }

  /** `Madx.use(sequence)`'s command; the engine reads back the same name. */
  function UseCommand(sequence: string): (cmd: string)
    ensures UseTarget(cmd) == Some(sequence)
  {
    var cmd := UsePrefix + sequence + ";";
    assert cmd[..|UsePrefix|] == UsePrefix;
    assert cmd[|UsePrefix|..|cmd| - 1] == sequence;
    cmd
  }

  /** A command that does not start with `u` changes no sequence. */
  lemma NotUse(cmd: string)
    requires |cmd| > 0 && cmd[0] != 'u'
    ensures UseTarget(cmd) == None
  {
    DiffersAt(cmd, UsePrefix, 0);
  }

  /** The history line for a command: newline-terminated, the command
      itself first, and at most the one newline added. */
  function HistLine(cmd: string): (line: string)
    requires cmd != ""
    ensures line == cmd || line == cmd + "\n"
    ensures line[|line| - 1] == '\n'
    ensures StartsWith(line, cmd)
  {
    if cmd[|cmd| - 1] == '\n' then cmd
    else
      PrefixStarts(cmd, "\n");
      cmd + "\n"
  }

  /** `cmd[-1]` raises `IndexError` on an empty command while history is on. */
  predicate Issuable(c: Config, cmd: string)
  {
    !(c.hist && cmd == "")
  }

  /** `_single_cmd(cmd)`: the history line first, then the engine input if
      the filter lets the command through; nothing when it raises. */
  function After(c: Config, s: Sink, cmd: string): Sink
  {
    if !Issuable(c, cmd) then s
    else
      var logged := s.log + (if c.hist then [Hist(HistLine(cmd))] else []);
      if c.accepts(Lower(cmd)) then
        Sink(logged + [Input(cmd)], match UseTarget(cmd) case Some(n) => n case None => s.current, s.files)
      else Sink(logged, s.current, s.files)
  }

  /** The commands `cmds` issued one after another. */
  function AfterAll(c: Config, s: Sink, cmds: seq<string>): Sink
  {
    if cmds == [] then s else After(c, AfterAll(c, s, cmds[..|cmds| - 1]), cmds[|cmds| - 1])
  }

  /** What `_single_cmd` leaves behind: the earlier log untouched, the
      newline-terminated history line (when history is on) ahead of the
      command handed to the engine (when the filter accepts it), and
      nothing else. */
  lemma SingleCmdEffect(c: Config, s: Sink, cmd: string)
    requires Issuable(c, cmd)
    ensures var t := After(c, s, cmd).log; var n := |s.log|; var h := if c.hist then 1 else 0;
      && t[..n] == s.log
      && |t| == n + h + (if c.accepts(Lower(cmd)) then 1 else 0)
      && (c.hist ==> t[n].Hist? && t[n].line[|t[n].line| - 1] == '\n' && StartsWith(t[n].line, cmd))
      && (c.accepts(Lower(cmd)) ==> t[n + h] == Input(cmd))
    ensures After(c, s, cmd).files == s.files
    ensures UseTarget(cmd).None? ==> After(c, s, cmd).current == s.current
  {
  }

  lemma AfterAllSnoc(c: Config, s: Sink, cmds: seq<string>, x: string)
    ensures AfterAll(c, s, cmds + [x]) == After(c, AfterAll(c, s, cmds), x)
  {
    assert (cmds + [x])[..|cmds|] == cmds;
  }

  lemma {:induction false} AfterAllAppend(c: Config, s: Sink, a: seq<string>, b: seq<string>)
    ensures AfterAll(c, s, a + b) == AfterAll(c, AfterAll(c, s, a), b)
    decreases |b|
  {
    if b == [] {
      assert a + b == a;
    } else {
      var front := b[..|b| - 1];
      assert a + b == (a + front) + [b[|b| - 1]];
      assert b == front + [b[|b| - 1]];
      AfterAllSnoc(c, s, a + front, b[|b| - 1]);
      AfterAllAppend(c, s, a, front);
      AfterAllSnoc(c, AfterAll(c, s, a), front, b[|b| - 1]);
    }
  }

  /** Commands that are not `use` commands leave the current sequence and
      the files alone. */
  lemma {:induction false} NoUseKeepsCurrent(c: Config, s: Sink, cmds: seq<string>)
    requires forall i :: 0 <= i < |cmds| ==> UseTarget(cmds[i]).None?
    ensures AfterAll(c, s, cmds).current == s.current
    ensures AfterAll(c, s, cmds).files == s.files
    decreases |cmds|
  {
    if cmds != [] {
      NoUseKeepsCurrent(c, s, cmds[..|cmds| - 1]);
    }
  }

  /** Setting the sequence to a name the engine accepts makes it current, so
      setting it again issues nothing; the first setting hands the engine
      exactly `use, sequence=<name>;` and nothing else. */
  lemma SetSequenceIdempotent(c: Config, s: Sink, name: string)
    requires s.current != name && c.accepts(Lower(UseCommand(name)))
    ensures After(c, s, UseCommand(name)).current == name
    ensures var t := After(c, s, UseCommand(name)).log;
      forall i :: |s.log| <= i < |t| && t[i].Input? ==> t[i] == Input(UseCommand(name))
  {
    SingleCmdEffect(c, s, UseCommand(name));
  }

  lemma SelectNotUse(flag: string, columns: Columns, pattern: seq<string>)
    ensures forall i :: 0 <= i < |SelectCommands(flag, columns, pattern)| ==>
      UseTarget(SelectCommands(flag, columns, pattern)[i]).None?
  {
    var cmds := SelectCommands(flag, columns, pattern);
    forall i | 0 <= i < |cmds| ensures UseTarget(cmds[i]).None? {
      assert cmds[i][0] == 'S';
      NotUse(cmds[i]);
    }
  }


  /** The commands of `Madx.twiss`: the SELECT group for `twiss`, the output
      format, `use` for a named sequence when asked to, and the twiss command
      on the named sequence or, without a name, on the current one. */
  function TwissCommands(current: string, sequence: string, pattern: seq<string>, columns: Columns,
                         rangeText: string, fname: string, optics: Dict, init: Dict,
                         chrom: bool, use: bool): seq<string>
  {
    var resolved := if sequence == "" then current else sequence;
    SelectCommands("twiss", columns, pattern) + [SetFormat]
      + (if use && sequence != "" then [UseCommand(sequence)] else [])
      + [TwissText(resolved, rangeText, chrom, fname, optics, init) + ";"]
  }

  /** The twiss command comes last and names the sequence asked for (the
      current one when none is named), and the only `use` among the commands
      is the one for the named sequence, issued just before it when `use` is
      set. */
  lemma TwissCommandsShape(current: string, sequence: string, pattern: seq<string>, columns: Columns,
                           rangeText: string, fname: string, optics: Dict, init: Dict, chrom: bool, use: bool)
    ensures var cmds := TwissCommands(current, sequence, pattern, columns, rangeText, fname, optics, init, chrom, use);
      var resolved := if sequence == "" then current else sequence;
      && StartsWith(cmds[|cmds| - 1], "twiss, sequence=" + resolved)
      && cmds[|cmds| - 1][|cmds[|cmds| - 1]| - 1] == ';'
      && (forall i :: 0 <= i < |cmds| ==> (UseTarget(cmds[i]).Some? <==> use && sequence != "" && i == |cmds| - 2))
  {
    TwissCommandsLast(current, sequence, pattern, columns, rangeText, fname, optics, init, chrom, use);
    TwissCommandsUse(current, sequence, pattern, columns, rangeText, fname, optics, init, chrom, use);
  }

  lemma TwissCommandsLast(current: string, sequence: string, pattern: seq<string>, columns: Columns,
                          rangeText: string, fname: string, optics: Dict, init: Dict, chrom: bool, use: bool)
    ensures var cmds := TwissCommands(current, sequence, pattern, columns, rangeText, fname, optics, init, chrom, use);
      var resolved := if sequence == "" then current else sequence;
      && StartsWith(cmds[|cmds| - 1], "twiss, sequence=" + resolved)
      && cmds[|cmds| - 1][|cmds[|cmds| - 1]| - 1] == ';'
  {
    var resolved := if sequence == "" then current else sequence;
    TwissFrame(resolved, rangeText, chrom, fname, optics, init);
  }

  lemma TwissCommandsUse(current: string, sequence: string, pattern: seq<string>, columns: Columns,
                         rangeText: string, fname: string, optics: Dict, init: Dict, chrom: bool, use: bool)
    ensures var cmds := TwissCommands(current, sequence, pattern, columns, rangeText, fname, optics, init, chrom, use);
      forall i :: 0 <= i < |cmds| ==> (UseTarget(cmds[i]).Some? <==> use && sequence != "" && i == |cmds| - 2)
  {
    var resolved := if sequence == "" then current else sequence;
    var sel := SelectCommands("twiss", columns, pattern) + [SetFormat];
    var mid := if use && sequence != "" then [UseCommand(sequence)] else [];
    var last := TwissText(resolved, rangeText, chrom, fname, optics, init) + ";";
    TwissFrame(resolved, rangeText, chrom, fname, optics, init);
    var p := "twiss, sequence=" + resolved;
    assert p[0] == 't';
    assert last[..|p|] == p && last[0] == last[..|p|][0];
    NotUse(last);
    SetupNotUse("twiss", columns, pattern);
    UseOnlyInMiddle(sel, mid, last);
  }

  /** In `sel + mid + [last]`, where only `mid` may hold a `use`, the only
      `use` is the one `mid` holds, just before `last`. */
  lemma UseOnlyInMiddle(sel: seq<string>, mid: seq<string>, last: string)
    requires forall i :: 0 <= i < |sel| ==> UseTarget(sel[i]).None?
    requires UseTarget(last).None?
    requires mid == [] || (|mid| == 1 && UseTarget(mid[0]).Some?)
    ensures var cmds := sel + mid + [last];
      forall i :: 0 <= i < |cmds| ==> (UseTarget(cmds[i]).Some? <==> mid != [] && i == |cmds| - 2)
  {
    var cmds := sel + mid + [last];
    forall i | 0 <= i < |cmds| ensures UseTarget(cmds[i]).Some? <==> mid != [] && i == |cmds| - 2 {
      if i < |sel| {
        assert cmds[i] == sel[i];
      } else if i < |sel| + |mid| {
        assert cmds[i] == mid[0];
      } else {
        assert cmds[i] == last;
      }
    }
  }

  /** The SELECT group and the `set` command issue no `use`. */
  lemma SetupNotUse(flag: string, columns: Columns, pattern: seq<string>)
    ensures var sel := SelectCommands(flag, columns, pattern) + [SetFormat];
      forall i :: 0 <= i < |sel| ==> UseTarget(sel[i]).None?
  {
    var sel := SelectCommands(flag, columns, pattern) + [SetFormat];
    SelectNotUse(flag, columns, pattern);
    assert SetFormat[0] == 's';
    NotUse(SetFormat);
    forall i | 0 <= i < |sel| ensures UseTarget(sel[i]).None? {
      if i == |sel| - 1 { assert sel[i] == SetFormat; }
    }
  }

  /** Commands without `use`, an optional `use`, and a last command without
      `use`: only the `use` can change the current sequence. */
  lemma {:induction false} UseOnlyChangesCurrent(c: Config, s: Sink, setup: seq<string>, mid: seq<string>,
                                                 last: string, sequence: string)
    requires forall i :: 0 <= i < |setup| ==> UseTarget(setup[i]).None?
    requires mid == [] || mid == [UseCommand(sequence)]
    requires UseTarget(last).None?
    ensures AfterAll(c, s, setup + mid + [last]).current
      == if mid != [] && c.accepts(Lower(UseCommand(sequence))) then sequence else s.current
  {
    NoUseKeepsCurrent(c, s, setup);
    var s1 := AfterAll(c, s, setup);
    AfterAllAppend(c, s, setup, mid);
    if mid != [] {
      AfterAllSnoc(c, s1, [], UseCommand(sequence));
      assert [] + [UseCommand(sequence)] == mid;
    }
    AfterAllSnoc(c, s, setup + mid, last);
    if Issuable(c, last) {
      SingleCmdEffect(c, AfterAll(c, s, setup + mid), last);
    }
  }

  /** A twiss with `use` on a name the engine accepts leaves that sequence
      current; any other twiss leaves the current one. */
  lemma TwissCurrent(c: Config, s: Sink, sequence: string, pattern: seq<string>, columns: Columns,
                     rangeText: string, fname: string, optics: Dict, init: Dict, chrom: bool, use: bool)
    ensures AfterAll(c, s, TwissCommands(s.current, sequence, pattern, columns, rangeText, fname, optics, init, chrom, use)).current
      == if use && sequence != "" && c.accepts(Lower(UseCommand(sequence))) then sequence else s.current
  {
    var resolved := if sequence == "" then s.current else sequence;
    var sel := SelectCommands("twiss", columns, pattern) + [SetFormat];
    var mid := if use && sequence != "" then [UseCommand(sequence)] else [];
    var last := TwissText(resolved, rangeText, chrom, fname, optics, init) + ";";
    TwissFrame(resolved, rangeText, chrom, fname, optics, init);
    assert last[0] == 't';
    NotUse(last);
    SetupNotUse("twiss", columns, pattern);
    UseOnlyChangesCurrent(c, s, sel, mid, last, sequence);
  }

  /** The commands of `Madx.survey`, writing its table to `tmpfile`. */
  function SurveyCommands(sequence: string, pattern: seq<string>, columns: Columns,
                          rangeText: string, tmpfile: string, use: bool): seq<string>
  {
    SelectCommands("survey", columns, pattern) + [SetFormat]
      + (if use && sequence != "" then [UseCommand(sequence)] else [])
      + ["survey," + rangeText + " file=\"" + tmpfile + "\";"]
  }

  /** The engine writes the table or knob file `path`. */
  function Output(s: Sink, path: string): Sink
  {
    Sink(s.log, s.current, s.files + {path})
  }

  /** The end of `survey` and `match`: the temporary file is removed when
      the caller named no file. */
  function Cleanup(s: Sink, fname: string, tmpfile: string): Sink
  {
    if fname == "" then Sink(s.log + [Remove(tmpfile)], s.current, s.files - {tmpfile}) else s
  }

  /** The temporary-file rule: a caller-named output file stays, a temporary
      one (fresh, so not an existing file) is removed again, so the files
      afterwards are those before plus the caller's file, if any; a removal
      is recorded exactly when no file was named. */
  lemma TempFileRule(s: Sink, fname: string, tmpfile: string)
    requires fname != "" ==> tmpfile == fname
    requires fname == "" ==> tmpfile !in s.files
    ensures Cleanup(Output(s, tmpfile), fname, tmpfile).files == s.files + (if fname != "" then {fname} else {})
    ensures var t := Cleanup(Output(s, tmpfile), fname, tmpfile).log;
      && t[..|s.log|] == s.log
      && (|t| > |s.log| <==> fname == "")
      && (fname == "" ==> t == s.log + [Remove(tmpfile)])
  {
  }

  /** A statement group renders as non-empty text. */
  lemma RenderAllNonEmpty(ss: seq<Stmt>)
    requires ss != []
    ensures RenderAll(ss) != ""
  {
    assert |Render(ss[0])| >= 2;
  }

  /** What `Madx.match` issues once `matchcommand` succeeded: the whole match
      group as one command, then the knob file is read and, if temporary,
      removed. */
  function MatchAfter(c: Config, s: Sink, text: string, fname: string, knobfile: string): Sink
  {
    Cleanup(Output(After(c, s, text), knobfile), fname, knobfile)
  }

  /** The session object. `hist`, `accepts` and `historyFile` are fixed at
      construction; `log`, `current` and `files` change with each call. */
  class Madx {
    const hist: bool
    const accepts: string -> bool
    const historyFile: string
    var log: seq<Entry>
    var current: string
    var files: set<string>

    function Cfg(): Config
    {
      Config(hist, accepts)
    }

    function State(): Sink
      reads this
    {
      Sink(log, current, files)
    }

    /** `Madx(histfile)`: history goes to `histfile` when one is given, else
        to a fresh `<base>.madx`-style name when a history base is
        configured (`cern.pymad.globals.MAD_HISTORY_BASE`), else nowhere;
        opening the history file creates it. */
    constructor (histfile: string, historyBase: string, accepts: string -> bool,
                 engineSequence: string, existing: set<string>)
      ensures hist == (histfile != "" || historyBase != "")
      ensures histfile != "" ==> historyFile == histfile
      ensures histfile == "" && historyBase != "" ==>
        historyFile !in existing && exists k: nat :: historyFile == Candidate(historyBase, ".madx", k)
      ensures !hist ==> historyFile == "" && files == existing
      ensures hist ==> files == existing + {historyFile}
      ensures this.accepts == accepts && log == [] && current == engineSequence
    {
      var name := "";
      if histfile != "" {
        name := histfile;
      } else if historyBase != "" {
        name := TmpFilename(historyBase, ".madx", existing);
      }
      hist := histfile != "" || historyBase != "";
      historyFile := name;
      this.accepts := accepts;
      log := [];
      current := engineSequence;
      files := if histfile != "" || historyBase != "" then existing + {name} else existing;
    }

    /** `_single_cmd(cmd)`, which is also `command(cmd)` for the single
        command strings the methods below pass (`_fixcmd` is not part of
        this model). */
    method SingleCmd(cmd: string) returns (r: Outcome)
      modifies this
      ensures r == if Issuable(Cfg(), cmd) then Pass else Fail(IndexError("string index out of range"))
      ensures State() == After(Cfg(), old(State()), cmd)
    {
      if hist {
        if cmd == "" {
          return Fail(IndexError("string index out of range"));
        }
        log := log + [Hist(HistLine(cmd))];
      }
      if accepts(Lower(cmd)) {
        log := log + [Input(cmd)];
        match UseTarget(cmd) {
          case Some(n) => current := n;
          case None =>
        }
      }
      r := Pass;
    }

    method Use(sequence: string)
      modifies this
      ensures State() == After(Cfg(), old(State()), UseCommand(sequence))
    {
      var r := SingleCmd(UseCommand(sequence));
    }

    /** The `sequence` setter: `use` only when the name differs from the
        engine's current sequence. */
    method SetSequence(name: string)
      modifies this
      ensures old(current) == name ==> State() == old(State())
      ensures old(current) != name ==> State() == After(Cfg(), old(State()), UseCommand(name))
    {
      if current != name {
        Use(name);
      }
    }

    /** `select(flag, columns, pattern)`. */
    method Select(flag: string, columns: Columns, pattern: seq<string>)
      modifies this
      ensures State() == AfterAll(Cfg(), old(State()), SelectCommands(flag, columns, pattern))
    {
      ghost var s0 := State();
      var clear, column := SelectPrefix(flag) + "CLEAR;", SelectPrefix(flag) + "COLUMN=" + ColumnsText(columns) + ";";
      var r := SingleCmd(clear);
      r := SingleCmd(column);
      AfterAllSnoc(Cfg(), s0, [], clear);
      AfterAllSnoc(Cfg(), s0, [clear], column);
      assert [] + [clear] == [clear];
      assert [clear] + [column] == [clear, column];
      IssuePatterns(flag, pattern);
      AfterAllAppend(Cfg(), s0, [clear, column], PatternCommands(flag, pattern));
    }

    /** The loop of `select` over the patterns. */
    method IssuePatterns(flag: string, pattern: seq<string>)
      modifies this
      ensures State() == AfterAll(Cfg(), old(State()), PatternCommands(flag, pattern))
    {
      for i := 0 to |pattern|
        invariant State() == AfterAll(Cfg(), old(State()), PatternCommands(flag, pattern[..i]))
      {
        var r := SingleCmd(PatternCommand(flag, pattern[i]));
        PatternCommandsSnoc(flag, pattern, i);
        AfterAllSnoc(Cfg(), old(State()), PatternCommands(flag, pattern[..i]), PatternCommand(flag, pattern[i]));
      }
      assert pattern[..|pattern|] == pattern;
    }

    /** The commands `twiss` issues (the table it then reads back is not
        part of this model). */
    method Twiss(sequence: string, pattern: seq<string>, columns: Columns, rangeText: string, fname: string,
                 betx: Value, bety: Value, alfx: Value, alfy: Value, init: Dict, chrom: bool, use: bool)
      modifies this
      ensures State() == AfterAll(Cfg(), old(State()),
        TwissCommands(old(current), sequence, pattern, columns, rangeText, fname, OpticsArgs(betx, bety, alfx, alfy), init, chrom, use))
    {
      ghost var s0 := State();
      Select("twiss", columns, pattern);
      var r := SingleCmd(SetFormat);
      ghost var sel := SelectCommands("twiss", columns, pattern) + [SetFormat];
      AfterAllSnoc(Cfg(), s0, SelectCommands("twiss", columns, pattern), SetFormat);
      SetupNotUse("twiss", columns, pattern);
      NoUseKeepsCurrent(Cfg(), s0, sel);
      ghost var s1 := State();
      var resolved := sequence;
      ghost var mid: seq<string> := [];
      if use && sequence != "" {
        Use(sequence);
        mid := [UseCommand(sequence)];
        assert AfterAll(Cfg(), s1, mid) == After(Cfg(), s1, UseCommand(sequence));
      } else if sequence == "" {
        resolved := current;
      }
      ghost var s2 := State();
      var cmd := TwissCommand(resolved, rangeText, chrom, fname, betx, bety, alfx, alfy, init);
      r := SingleCmd(cmd + ";");
      assert AfterAll(Cfg(), s2, [cmd + ";"]) == After(Cfg(), s2, cmd + ";");
      AfterAllAppend(Cfg(), s0, sel, mid);
      AfterAllAppend(Cfg(), s0, sel + mid, [cmd + ";"]);
    }

    /** `survey`: the table goes to `fname`, or to a fresh temporary file
        that is removed afterwards; `tmpfile` is the file used. */
    method Survey(sequence: string, pattern: seq<string>, columns: Columns, rangeText: string,
                  fname: string, use: bool)
      returns (tmpfile: string)
      modifies this
      ensures fname != "" ==> tmpfile == fname
      ensures fname == "" ==> tmpfile !in old(files) && exists k: nat :: tmpfile == Candidate("survey", ".temp.tfs", k)
      ensures State() == Cleanup(Output(AfterAll(Cfg(), old(State()),
        SurveyCommands(sequence, pattern, columns, rangeText, tmpfile, use)), tmpfile), fname, tmpfile)
    {
      ghost var s0 := State();
      if fname != "" {
        tmpfile := fname;
      } else {
        tmpfile := TmpFilename("survey", ".temp.tfs", files);
      }
      Select("survey", columns, pattern);
      var r := SingleCmd(SetFormat);
      ghost var sel := SelectCommands("survey", columns, pattern) + [SetFormat];
      AfterAllSnoc(Cfg(), s0, SelectCommands("survey", columns, pattern), SetFormat);
      ghost var s1 := State();
      ghost var mid: seq<string> := [];
      if use && sequence != "" {
        Use(sequence);
        mid := [UseCommand(sequence)];
        assert AfterAll(Cfg(), s1, mid) == After(Cfg(), s1, UseCommand(sequence));
      }
      ghost var s2 := State();
      var cmd := "survey," + rangeText + " file=\"" + tmpfile + "\";";
      r := SingleCmd(cmd);
      assert AfterAll(Cfg(), s2, [cmd]) == After(Cfg(), s2, cmd);
      AfterAllAppend(Cfg(), s0, sel, mid);
      AfterAllAppend(Cfg(), s0, sel + mid, [cmd]);
      Finish(fname, tmpfile);
    }

    /** `match`: builds the group with `matchcommand` on the named sequence
        (the current one when none is named), with the knob file `fname` or
        a fresh temporary one, issues it as one command and removes the
        temporary file afterwards. When `matchcommand` raises, nothing is
        issued. */
    method Match(sequence: string, constraints: seq<Group>, vary: Vary, weight: Group, mth: Method,
                 fname: string, betx: Value, bety: Value, alfx: Value, alfy: Value, twissInit: Dict)
      returns (r: Outcome, knobfile: string)
      modifies this
      ensures fname != "" ==> knobfile == fname
      ensures fname == "" ==> knobfile !in old(files) && exists k: nat :: knobfile == Candidate("match", ".temp.tfs", k)
      ensures var resolved := if sequence == "" then old(current) else sequence;
        match MatchStatements(resolved, constraints, vary, weight, mth, knobfile, OpticsArgs(betx, bety, alfx, alfy), twissInit)
        case Failure(e) => r == Fail(e) && State() == old(State())
        case Success(ss) => r == Pass && State() == MatchAfter(Cfg(), old(State()), RenderAll(ss), fname, knobfile)
    {
      if fname != "" {
        knobfile := fname;
      } else {
        knobfile := TmpFilename("match", ".temp.tfs", files);
      }
      var resolved := if sequence == "" then current else sequence;
      var text := MatchCommand(resolved, constraints, vary, weight, mth, knobfile, betx, bety, alfx, alfy, twissInit);
      if text.Failure? {
        return Fail(text.error), knobfile;
      }
      ghost var opt := OpticsArgs(betx, bety, alfx, alfy);
      MatchShape(resolved, constraints, vary, weight, mth, knobfile, opt, twissInit);
      RenderAllNonEmpty(MatchStatements(resolved, constraints, vary, weight, mth, knobfile, opt, twissInit).value);
      r := SingleCmd(text.value);
      Finish(fname, knobfile);
    }

    /** The engine writes `path`; it is removed again when the caller named
        no file. */
    method Finish(fname: string, path: string)
      modifies this
      ensures State() == Cleanup(Output(old(State()), path), fname, path)
    {
      files := files + {path};
      if fname == "" {
        log := log + [Remove(path)];
        files := files - {path};
      }
    }
  }
}

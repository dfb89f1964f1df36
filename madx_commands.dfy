/** The command builders of src/cern/cpymad/madx.py: temporary file names,
    the SELECT sequence, the twiss command text and the match statement
    group. Each loop of the source is a method proved against a function
    that says what it builds. */
module MadxCommands {
  import opened Wrappers
  import opened Strings
  import opened Keyed
  import opened MadxTools

  predicate StartsWith(s: string, p: string)
  {
    |p| <= |s| && s[..|p|] == p
  }

  lemma PrefixStarts(a: string, b: string)
    ensures StartsWith(a + b, a)
  {
    assert (a + b)[..|a|] == a;
  }

  lemma DiffersAt(s: string, p: string, n: nat)
    requires n < |s| && n < |p| && s[n] != p[n]
    ensures !StartsWith(s, p)
  {
    if |p| <= |s| {
      assert s[..|p|][n] == s[n];
    }
  }

  // ---------------------------------------------------------------------
  // _tmp_filename

  /** The k-th name `_tmp_filename` tries: `op+suffix`, then `op.0+suffix`,
      `op.1+suffix`, ... */
  function Candidate(operation: string, suffix: string, k: nat): string
  {
    if k == 0 then operation + suffix
    else operation + "." + NatToString(k - 1) + suffix
  }

  /** No name is tried twice. */
  lemma CandidateInjective(operation: string, suffix: string, j: nat, k: nat)
    requires Candidate(operation, suffix, j) == Candidate(operation, suffix, k)
    ensures j == k
  {
    if j > 0 && k > 0 {
      var n := |operation| + 1;
      var cj, ck := Candidate(operation, suffix, j), Candidate(operation, suffix, k);
      var dj, dk := NatToString(j - 1), NatToString(k - 1);
      assert |dj| == |dk|;
      assert cj[n..n + |dj|] == dj;
      assert ck[n..n + |dk|] == dk;
      NatToStringInjective(j - 1, k - 1);
    }
  }

  lemma SubsetCard(a: set<string>, b: set<string>)
    requires a <= b
    ensures |a| <= |b|
  {
    assert b == a + (b - a);
  }

  /** `_tmp_filename`: the first candidate name that is not an existing file. */
  method TmpFilename(operation: string, suffix: string, existing: set<string>) returns (name: string)
    ensures name !in existing
    ensures exists k: nat ::
      && name == Candidate(operation, suffix, k)
      && forall j :: 0 <= j < k ==> Candidate(operation, suffix, j) in existing
  {
    name := operation + suffix;
    var i: nat := 0;
    ghost var tried: set<string> := {};
    while name in existing
      invariant name == Candidate(operation, suffix, i)
      invariant forall j :: 0 <= j < i ==> Candidate(operation, suffix, j) in tried
      invariant forall t :: t in tried ==> exists j :: 0 <= j < i && t == Candidate(operation, suffix, j)
      invariant tried <= existing && |tried| == i
      decreases |existing| - i
    {
      assert name !in tried by {
        if name in tried {
          var j :| 0 <= j < i && name == Candidate(operation, suffix, j);
          CandidateInjective(operation, suffix, i, j);
        }
      }
      tried := tried + {name};
      SubsetCard(tried, existing);
      name := operation + "." + NatToString(i) + suffix;
      i := i + 1;
    }
  }

  // ---------------------------------------------------------------------
  // select

  /** The `columns` argument: a string, or a list joined with `', '`. */
  datatype Columns = ColumnText(text: string) | ColumnList(names: seq<string>)

  function ColumnsText(c: Columns): string
  {
    match c
    case ColumnText(t) => t
    case ColumnList(names) => Join(names, ", ")
  }

  function SelectPrefix(flag: string): string
  {
    "SELECT, FLAG=" + flag + ", "
  }

  function PatternCommand(flag: string, p: string): string
  {
    SelectPrefix(flag) + "PATTERN=" + p + ";"
  }

  /** One PATTERN= line per pattern, in order. */
  function PatternCommands(flag: string, pattern: seq<string>): seq<string>
  {
    seq(|pattern|, i requires 0 <= i < |pattern| => PatternCommand(flag, pattern[i]))
  }

  lemma PatternCommandsSnoc(flag: string, pattern: seq<string>, i: nat)
    requires i < |pattern|
    ensures PatternCommands(flag, pattern[..i + 1]) == PatternCommands(flag, pattern[..i]) + [PatternCommand(flag, pattern[i])]
  {
    var a := PatternCommands(flag, pattern[..i + 1]);
    var b := PatternCommands(flag, pattern[..i]) + [PatternCommand(flag, pattern[i])];
    assert |a| == |b|;
    forall k | 0 <= k < |a| ensures a[k] == b[k] {
      assert pattern[..i + 1][k] == pattern[k];
    }
  }

  /** The commands `Madx.select` issues, in order. */
  function SelectCommands(flag: string, columns: Columns, pattern: seq<string>): seq<string>
  {
    [SelectPrefix(flag) + "CLEAR;", SelectPrefix(flag) + "COLUMN=" + ColumnsText(columns) + ";"]
      + PatternCommands(flag, pattern)
  }

  /** The CLEAR line comes first, the only COLUMN= line second, and then one
      PATTERN= line per pattern, in the caller's order. */
  lemma SelectOrder(flag: string, columns: Columns, pattern: seq<string>)
    ensures var cmds := SelectCommands(flag, columns, pattern);
      && |cmds| == 2 + |pattern|
      && cmds[0] == SelectPrefix(flag) + "CLEAR;"
      && cmds[1] == SelectPrefix(flag) + "COLUMN=" + ColumnsText(columns) + ";"
      && (forall i :: 0 <= i < |cmds| ==> (StartsWith(cmds[i], SelectPrefix(flag) + "COLUMN=") <==> i == 1))
      && (forall i :: 0 <= i < |cmds| ==> (StartsWith(cmds[i], SelectPrefix(flag) + "PATTERN=") <==> 2 <= i))
      && (forall i :: 0 <= i < |pattern| ==> cmds[2 + i] == SelectPrefix(flag) + "PATTERN=" + pattern[i] + ";")
  {
    var cmds := SelectCommands(flag, columns, pattern);
    var pre := SelectPrefix(flag);
    var n := |pre|;
    var col, pat := pre + "COLUMN=", pre + "PATTERN=";
    assert col[n] == 'C' && col[n + 1] == 'O' && pat[n] == 'P';
    forall i | 0 <= i < |cmds|
      ensures StartsWith(cmds[i], col) <==> i == 1
      ensures StartsWith(cmds[i], pat) <==> 2 <= i
    {
      if i == 0 {
        assert cmds[i] == pre + "CLEAR;";
        assert cmds[i][n] == 'C' && cmds[i][n + 1] == 'L';
        DiffersAt(cmds[i], col, n + 1);
        DiffersAt(cmds[i], pat, n);
      } else if i == 1 {
        assert cmds[i] == col + (ColumnsText(columns) + ";");
        PrefixStarts(col, ColumnsText(columns) + ";");
        assert cmds[i][n] == 'C';
        DiffersAt(cmds[i], pat, n);
      } else {
        assert cmds[i] == pat + (pattern[i - 2] + ";");
        PrefixStarts(pat, pattern[i - 2] + ";");
        assert cmds[i][n] == 'P';
        DiffersAt(cmds[i], col, n);
      }
    }
  }

  // ---------------------------------------------------------------------
  // twiss

  /** Drops one trailing comma, as `_tmpcmd[:-1]` does. */
  function StripComma(s: string): string
  {
    if |s| > 0 && s[|s| - 1] == ',' then s[..|s| - 1] else s
  }

  /** The optics arguments of `Madx.twiss`, in the order of its literal dict. */
  function OpticsArgs(betx: Value, bety: Value, alfx: Value, alfy: Value): Dict
  {
    [("betx", betx), ("bety", bety), ("alfx", alfx), ("alfy", alfy)]
  }

  function TwissHead(sequence: string, rangeText: string, chrom: bool): string
  {
    StripComma("twiss, sequence=" + sequence + "," + rangeText + (if chrom then ",chrom" else ""))
  }

  function FileField(fname: string): string
  {
    if fname != "" then ", file=\"" + fname + "\"" else ""
  }

  function OpticsField(e: (string, Value)): string
  {
    if e.1 != Nil then "," + e.0 + "=" + Show(e.1) else ""
  }

  /** `,key=value` for every optics argument that is not None. */
  function OpticsFields(d: Dict): string
  {
    if d == [] then "" else OpticsFields(d[..|d| - 1]) + OpticsField(d[|d| - 1])
  }

  predicate ReservedInit(key: string)
  {
    key == "name" || key == "closed-orbit"
  }

  function InitField(e: (string, Value)): string
  {
    if ReservedInit(e.0) then ""
    else if e.1 == Bool(true) then "," + e.0
    else "," + e.0 + "=" + Show(e.1)
  }

  /** The `twiss_init` entries: `name` and `closed-orbit` skipped, `True`
      values as bare flags. */
  function InitFields(d: Dict): string
  {
    if d == [] then "" else InitFields(d[..|d| - 1]) + InitField(d[|d| - 1])
  }

  /** The twiss command `Madx.twiss` builds, before its `;` is added. */
  function TwissText(sequence: string, rangeText: string, chrom: bool, fname: string,
                     optics: Dict, init: Dict): string
  {
    TwissHead(sequence, rangeText, chrom) + FileField(fname) + OpticsFields(optics) + InitFields(init)
  }

  lemma OpticsFieldsStep(d: Dict, i: nat)
    requires i < |d|
    ensures OpticsFields(d[..i + 1]) == OpticsFields(d[..i]) + OpticsField(d[i])
  {
    assert d[..i + 1][..i] == d[..i];
  }

  lemma InitFieldsStep(d: Dict, i: nat)
    requires i < |d|
    ensures InitFields(d[..i + 1]) == InitFields(d[..i]) + InitField(d[i])
  {
    assert d[..i + 1][..i] == d[..i];
  }

  /** The `for i_var, i_val in {...}.items()` loop over the optics arguments. */
  method OpticsFieldsText(optics: Dict) returns (text: string)
    ensures text == OpticsFields(optics)
  {
    text := "";
    var i := 0;
    while i < |optics|
      invariant 0 <= i <= |optics|
      invariant text == OpticsFields(optics[..i])
    {
      var k, v := optics[i].0, optics[i].1;
      var piece := "";
      if v != Nil {
        piece := "," + k + "=" + Show(v);
      }
      text := text + piece;
      OpticsFieldsStep(optics, i);
      i := i + 1;
    }
    assert optics[..i] == optics;
  }

  /** The `for i_var, i_val in twiss_init.items()` loop. */
  method InitFieldsText(init: Dict) returns (text: string)
    ensures text == InitFields(init)
  {
    text := "";
    var i := 0;
    while i < |init|
      invariant 0 <= i <= |init|
      invariant text == InitFields(init[..i])
    {
      var k, v := init[i].0, init[i].1;
      var piece := "";
      if k != "name" && k != "closed-orbit" {
        if v == Bool(true) {
          piece := "," + k;
        } else {
          piece := "," + k + "=" + Show(v);
        }
      }
      assert piece == InitField(init[i]);
      text := text + piece;
      InitFieldsStep(init, i);
      i := i + 1;
    }
    assert init[..i] == init;
  }

  /** The start of `_tmpcmd`: sequence, range, `chrom`, the trailing comma
      stripped, and the output file. */
  method TwissHeadText(sequence: string, rangeText: string, chrom: bool, fname: string)
    returns (cmd: string)
    ensures cmd == TwissHead(sequence, rangeText, chrom) + FileField(fname)
  {
    cmd := "twiss, sequence=" + sequence + "," + rangeText;
    if chrom {
      cmd := cmd + ",chrom";
    }
    if cmd[|cmd| - 1] == ',' {
      cmd := cmd[..|cmd| - 1];
    }
    if fname != "" {
      cmd := cmd + ", file=\"" + fname + "\"";
    }
  }

  /** The `_tmpcmd` construction of `Madx.twiss`. */
  method TwissCommand(sequence: string, rangeText: string, chrom: bool, fname: string,
                      betx: Value, bety: Value, alfx: Value, alfy: Value, init: Dict)
    returns (cmd: string)
    ensures cmd == TwissText(sequence, rangeText, chrom, fname, OpticsArgs(betx, bety, alfx, alfy), init)
  {
    var head := TwissHeadText(sequence, rangeText, chrom, fname);
    var fields := OpticsFieldsText(OpticsArgs(betx, bety, alfx, alfy));
    var initFields := InitFieldsText(init);
    cmd := head + fields + initFields;
  }

  lemma StartsExtend(x: string, y: string, p: string)
    requires StartsWith(x, p)
    ensures StartsWith(x + y, p)
  {
    assert (x + y)[..|p|] == x[..|p|];
  }

  lemma StripKeepsPrefix(raw: string, p: string)
    requires StartsWith(raw, p) && |raw| > |p|
    ensures StartsWith(StripComma(raw), p)
  {
    if raw[|raw| - 1] == ',' {
      assert raw[..|raw| - 1][..|p|] == raw[..|p|];
    }
  }

  /** The issued twiss command starts `twiss, sequence=<seq>` and ends in `;`. */
  lemma TwissFrame(sequence: string, rangeText: string, chrom: bool, fname: string, optics: Dict, init: Dict)
    ensures var c := TwissText(sequence, rangeText, chrom, fname, optics, init) + ";";
      StartsWith(c, "twiss, sequence=" + sequence) && c[|c| - 1] == ';'
  {
    var p := "twiss, sequence=" + sequence;
    PrefixStarts(p, ",");
    StartsExtend(p + ",", rangeText, p);
    StartsExtend(p + "," + rangeText, if chrom then ",chrom" else "", p);
    StripKeepsPrefix(p + "," + rangeText + (if chrom then ",chrom" else ""), p);
    var head := TwissHead(sequence, rangeText, chrom);
    StartsExtend(head, FileField(fname), p);
    StartsExtend(head + FileField(fname), OpticsFields(optics), p);
    StartsExtend(head + FileField(fname) + OpticsFields(optics), InitFields(init), p);
    StartsExtend(TwissText(sequence, rangeText, chrom, fname, optics, init), ";", p);
  }

  /** How range and `chrom` shape the head of the command: with `chrom` it
      ends `,<range>,chrom` (so an empty range leaves `,,chrom`); without it
      a non-empty range ends the head and an empty one leaves no comma. */
  lemma TwissHeadShape(sequence: string, rangeText: string, chrom: bool)
    ensures chrom ==> TwissHead(sequence, rangeText, chrom) == "twiss, sequence=" + sequence + "," + rangeText + ",chrom"
    ensures !chrom && rangeText != "" && rangeText[|rangeText| - 1] != ',' ==>
      TwissHead(sequence, rangeText, chrom) == "twiss, sequence=" + sequence + "," + rangeText
    ensures !chrom && rangeText == "" ==> TwissHead(sequence, rangeText, chrom) == "twiss, sequence=" + sequence
  {
    var p := "twiss, sequence=" + sequence;
    if !chrom && rangeText == "" {
      assert p + "," + rangeText + "" == p + ",";
      assert (p + ",")[..|p|] == p;
    }
  }

  /** A file name, when given, follows the head as `, file="<fname>"`;
      without one nothing stands between the head and the optics fields. */
  lemma TwissFile(sequence: string, rangeText: string, chrom: bool, fname: string, optics: Dict, init: Dict)
    ensures var head := TwissHead(sequence, rangeText, chrom);
      StartsWith(TwissText(sequence, rangeText, chrom, fname, optics, init), head + FileField(fname))
    ensures fname != "" ==> FileField(fname) == ", file=\"" + fname + "\""
    ensures fname == "" ==>
      TwissText(sequence, rangeText, chrom, fname, optics, init) == TwissHead(sequence, rangeText, chrom) + OpticsFields(optics) + InitFields(init)
  {
    var head := TwissHead(sequence, rangeText, chrom);
    var p := head + FileField(fname);
    assert TwissText(sequence, rangeText, chrom, fname, optics, init) == p + OpticsFields(optics) + InitFields(init);
    if fname == "" {
      assert p == head;
    } else {
      PrefixStarts(p, OpticsFields(optics));
      StartsExtend(p + OpticsFields(optics), InitFields(init), p);
    }
  }

  function WithoutReserved(d: Dict): Dict
  {
    if d == [] then []
    else WithoutReserved(d[..|d| - 1]) + (if ReservedInit(d[|d| - 1].0) then [] else [d[|d| - 1]])
  }

  /** The `name` and `closed-orbit` entries of `twiss_init` never reach the command. */
  lemma {:induction false} InitFieldsSkipReserved(d: Dict)
    ensures InitFields(d) == InitFields(WithoutReserved(d))
  {
    if d != [] {
      var front, last := d[..|d| - 1], d[|d| - 1];
      InitFieldsSkipReserved(front);
      var w := WithoutReserved(d);
      assert InitFields(d) == InitFields(front) + InitField(last);
      if ReservedInit(last.0) {
        assert InitField(last) == "";
        assert w == WithoutReserved(front) + [];
        assert w == WithoutReserved(front);
      } else {
        assert w == WithoutReserved(front) + [last];
        assert w[..|w| - 1] == WithoutReserved(front);
        assert InitFields(w) == InitFields(WithoutReserved(front)) + InitField(last);
      }
    }
  }

  /** A `True` entry becomes the bare flag `,key`; any other value `,key=value`. */
  lemma InitFieldsAppend(d: Dict, key: string, v: Value)
    requires !ReservedInit(key)
    ensures InitFields(d + [(key, v)]) == InitFields(d) + (if v == Bool(true) then "," + key else "," + key + "=" + Show(v))
  {
    assert (d + [(key, v)])[..|d|] == d;
  }

  // ---------------------------------------------------------------------
  // matchcommand

  /** The `TypeError` that `_mad_command_unpack(name, v)` raises for a `v`
      that is neither a list nor a mapping: `matchcommand` relies on it when
      it catches `TypeError` around the unpacking of a vary value. The
      message comes from `_madx_tools`, which is not part of this model, so
      the error carries the statement name. */
  function UnpackError(name: string): (e: Error)
    ensures e.TypeError? && e.what == name
  {
    TypeError(name)
  }

  /** An entry of a vary list: a bare name, arguments to unpack, or any
      other value (a number, say), which is passed to `_mad_command_unpack`
      like a group and makes it raise. */
  datatype VaryEntry = Named(name: string) | Unpacked(group: Group) | Scalar

  /** No entry of the vary list is a scalar. */
  predicate AllUnpackable(es: seq<VaryEntry>)
  {
    forall i :: 0 <= i < |es| ==> !es[i].Scalar?
  }

  /** A value of a vary mapping: arguments to unpack, or a scalar step. */
  datatype VarySpec = Structured(group: Group) | Step(step: Value)

  /** The `vary` argument: a list, a mapping, or any other object. */
  datatype Vary = VaryList(entries: seq<VaryEntry>) | VaryMap(specs: seq<(string, VarySpec)>) | VaryOther

  /** The `method` list: a method name and an optional argument group. */
  datatype Method = Method(name: string, options: Option<Group>)

  /** `d[k] = v` on a dict: replaces the value in place or appends the key. */
  function Update(d: Dict, k: string, v: Value): (r: Dict)
    ensures (k, v) in r
    ensures forall e :: e in d && e.0 != k ==> e in r
    ensures forall e :: e in r ==> e == (k, v) || e in d
  {
    if d == [] then [(k, v)]
    else if d[0].0 == k then [(k, v)] + d[1..]
    else [d[0]] + Update(d[1..], k, v)
  }

  /** `twiss_init` after the non-None optics arguments have been stored into it. */
  function MergeOptics(init: Dict, optics: Dict): Dict
  {
    if optics == [] then init
    else
      var d := MergeOptics(init, optics[..|optics| - 1]);
      var e := optics[|optics| - 1];
      if e.1 != Nil then Update(d, e.0, e.1) else d
  }

  function VaryListStmt(e: VaryEntry): Stmt
    requires !e.Scalar?
  {
    match e
    case Named(s) => Command("vary", [], [("name", Str(s))])
    case Unpacked(g) => CommandUnpack("vary", g, [])
  }

  function VaryMapStmt(e: (string, VarySpec)): Stmt
  {
    match e.1
    case Structured(g) => CommandUnpack("vary", g, [("name", Str(e.0))])
    case Step(v) => Command("vary", [], [("name", Str(e.0)), ("step", v)])
  }

  function ListStmts(es: seq<VaryEntry>): seq<Stmt>
    requires AllUnpackable(es)
  {
    if es == [] then [] else ListStmts(es[..|es| - 1]) + [VaryListStmt(es[|es| - 1])]
  }

  function MapStmts(items: seq<(string, VarySpec)>): seq<Stmt>
  {
    if items == [] then [] else MapStmts(items[..|items| - 1]) + [VaryMapStmt(items[|items| - 1])]
  }

  /** The vary statements, or the TypeError for a vary of the wrong kind. */
  function VaryStmts(vary: Vary): Result<seq<Stmt>>
  {
    match vary
    case VaryList(es) => if AllUnpackable(es) then Success(ListStmts(es)) else Failure(UnpackError("vary"))
    case VaryMap(d) => Success(MapStmts(SortByKey(d)))
    case VaryOther => Failure(TypeError("vary must be list or dict."))
  }

  function HeaderStmt(sequence: string, init: Dict): Stmt
  {
    Command("match", [Param("sequence", Str(sequence))], init)
  }

  function ConstraintStmts(cs: seq<Group>): seq<Stmt>
  {
    if cs == [] then [] else ConstraintStmts(cs[..|cs| - 1]) + [CommandUnpack("constraint", cs[|cs| - 1], [])]
  }

  function WeightStmts(weight: Group): seq<Stmt>
  {
    if GroupTruthy(weight) then [CommandUnpack("weight", weight, [])] else []
  }

  function MethodStmt(m: Method): Stmt
  {
    match m.options
    case None => Command(m.name, [], [])
    case Some(g) => CommandUnpack(m.name, g, [])
  }

  function EndStmt(fname: string): Stmt
  {
    if fname != "" then Command("endmatch", [], [("knobfile", Str(fname))]) else Command("endmatch", [], [])
  }

  /** The statements `Madx.matchcommand` emits, in their order. */
  function MatchStatements(sequence: string, constraints: seq<Group>, vary: Vary, weight: Group,
                           mth: Method, fname: string, optics: Dict, init: Dict): Result<seq<Stmt>>
  {
    match VaryStmts(vary)
    case Failure(e) => Failure(e)
    case Success(vs) =>
      Success([HeaderStmt(sequence, MergeOptics(init, optics))] + (ConstraintStmts(constraints) + (vs
              + (WeightStmts(weight) + [MethodStmt(mth), EndStmt(fname)]))))
  }

  lemma RenderStep(ss: seq<Stmt>, s: Stmt)
    ensures RenderAll(ss + [s]) == RenderAll(ss) + Render(s)
  {
    RenderAllAppend(ss, [s]);
    assert RenderAll([s]) == Render(s) + RenderAll([]);
  }

  /** The `for c in constraints` loop of `matchcommand`. */
  method ConstraintText(constraints: seq<Group>) returns (text: string)
    ensures text == RenderAll(ConstraintStmts(constraints))
  {
    text := "";
    var i := 0;
    while i < |constraints|
      invariant 0 <= i <= |constraints|
      invariant text == RenderAll(ConstraintStmts(constraints[..i]))
    {
      var st := CommandUnpack("constraint", constraints[i], []);
      text := text + Render(st);
      assert constraints[..i + 1][..i] == constraints[..i];
      RenderStep(ConstraintStmts(constraints[..i]), st);
      i := i + 1;
    }
    assert constraints[..i] == constraints;
  }

  /** The statement for one entry of a vary mapping. */
  method VaryMapEntry(k: string, spec: VarySpec) returns (st: Stmt)
    ensures st == VaryMapStmt((k, spec))
  {
    match spec {
      case Structured(g) => st := CommandUnpack("vary", g, [("name", Str(k))]);
      case Step(v) => st := Command("vary", [], [("name", Str(k)), ("step", v)]);
    }
  }

  /** The `for k, v in _sorted_items(vary)` loop: one statement per key,
      in sorted key order. */
  method VaryMapText(items: seq<(string, VarySpec)>) returns (text: string)
    ensures text == RenderAll(MapStmts(items))
  {
    text := "";
    var i := 0;
    while i < |items|
      invariant 0 <= i <= |items|
      invariant text == RenderAll(MapStmts(items[..i]))
    {
      var st := VaryMapEntry(items[i].0, items[i].1);
      text := text + Render(st);
      assert items[..i + 1][..i] == items[..i];
      assert MapStmts(items[..i + 1]) == MapStmts(items[..i]) + [st];
      RenderStep(MapStmts(items[..i]), st);
      i := i + 1;
    }
    assert items[..i] == items;
  }

  /** The statement for one entry of a vary list: a string is the name, and
      anything else goes to `_mad_command_unpack`, which refuses a scalar. */
  method VaryListEntry(e: VaryEntry) returns (r: Result<Stmt>)
    ensures e.Scalar? ==> r == Failure(UnpackError("vary"))
    ensures !e.Scalar? ==> r == Success(VaryListStmt(e))
  {
    match e {
      case Named(s) => r := Success(Command("vary", [], [("name", Str(s))]));
      case Unpacked(g) => r := Success(CommandUnpack("vary", g, []));
      case Scalar => r := Failure(UnpackError("vary"));
    }
  }

  /** The `for v in vary` loop: one statement per entry, in list order, up
      to the first scalar entry, whose `TypeError` ends it. */
  method VaryListText(es: seq<VaryEntry>) returns (r: Result<string>)
    ensures AllUnpackable(es) ==> r == Success(RenderAll(ListStmts(es)))
    ensures !AllUnpackable(es) ==> r == Failure(UnpackError("vary"))
  {
    var text := "";
    var i := 0;
    while i < |es|
      invariant 0 <= i <= |es|
      invariant AllUnpackable(es[..i])
      invariant text == RenderAll(ListStmts(es[..i]))
    {
      var st := VaryListEntry(es[i]);
      if st.Failure? {
        assert !AllUnpackable(es);
        return Failure(st.error);
      }
      text := text + Render(st.value);
      UnpackableStep(es, i);
      assert ListStmts(es[..i + 1]) == ListStmts(es[..i]) + [st.value];
      RenderStep(ListStmts(es[..i]), st.value);
      i := i + 1;
    }
    assert es[..i] == es;
    r := Success(text);
  }

  lemma UnpackableStep(es: seq<VaryEntry>, i: nat)
    requires i < |es| && AllUnpackable(es[..i]) && !es[i].Scalar?
    ensures AllUnpackable(es[..i + 1]) && es[..i + 1][..i] == es[..i] && es[..i + 1][i] == es[i]
  {
    assert forall j :: 0 <= j < i ==> es[..i + 1][j] == es[..i][j];
  }

  /** The VARY part of `matchcommand`: a mapping in sorted key order, a list
      in its own order (or the `TypeError` of a scalar entry), anything else
      a TypeError. */
  method VaryText(vary: Vary) returns (r: Result<string>)
    ensures match VaryStmts(vary)
      case Success(vs) => r == Success(RenderAll(vs))
      case Failure(e) => r == Failure(e)
  {
    match vary {
      case VaryMap(d) =>
        var text := VaryMapText(SortByKey(d));
        r := Success(text);
      case VaryList(es) =>
        r := VaryListText(es);
      case VaryOther =>
        r := Failure(TypeError("vary must be list or dict."));
    }
  }

  /** The loop of `matchcommand` that stores the non-None optics arguments
      into `twiss_init`. */
  method MergeInto(twissInit: Dict, optics: Dict) returns (init: Dict)
    ensures init == MergeOptics(twissInit, optics)
  {
    init := twissInit;
    var i := 0;
    while i < |optics|
      invariant 0 <= i <= |optics|
      invariant init == MergeOptics(twissInit, optics[..i])
    {
      var k, v := optics[i].0, optics[i].1;
      if v != Nil {
        init := Update(init, k, v);
      }
      assert optics[..i + 1][..i] == optics[..i];
      i := i + 1;
    }
    assert optics[..i] == optics;
  }

  /** `Madx.matchcommand`: the match statement group as text. */
  method MatchCommand(sequence: string, constraints: seq<Group>, vary: Vary, weight: Group,
                      mth: Method, fname: string, betx: Value, bety: Value, alfx: Value, alfy: Value,
                      twissInit: Dict)
    returns (r: Result<string>)
    ensures match MatchStatements(sequence, constraints, vary, weight, mth, fname, OpticsArgs(betx, bety, alfx, alfy), twissInit)
      case Success(ss) => r == Success(RenderAll(ss))
      case Failure(e) => r == Failure(e)
  {
    var init := MergeInto(twissInit, OpticsArgs(betx, bety, alfx, alfy));
    var header := HeaderStmt(sequence, init);
    var ctext := ConstraintText(constraints);
    var vtext := VaryText(vary);
    if vtext.Failure? {
      return Failure(vtext.error);
    }
    var tail := TailText(weight, mth, fname);
    r := Success(Render(header) + (ctext + (vtext.value + tail)));
    MatchTextSplit(header, ConstraintStmts(constraints), VaryStmts(vary).value, WeightStmts(weight), MethodStmt(mth), EndStmt(fname));
  }

  /** The WEIGHT, METHOD and ENDMATCH statements of `matchcommand`. */
  method TailText(weight: Group, mth: Method, fname: string) returns (text: string)
    ensures text == RenderAll(WeightStmts(weight)) + (Render(MethodStmt(mth)) + Render(EndStmt(fname)))
  {
    text := "";
    if GroupTruthy(weight) {
      var st := CommandUnpack("weight", weight, []);
      RenderSingle(st);
      text := Render(st);
    }
    var ending: string;
    if fname != "" {
      ending := Render(Command("endmatch", [], [("knobfile", Str(fname))]));
    } else {
      ending := Render(Command("endmatch", [], []));
    }
    text := text + (Render(MethodStmt(mth)) + ending);
  }

  lemma MatchTextSplit(h: Stmt, cs: seq<Stmt>, vs: seq<Stmt>, ws: seq<Stmt>, m: Stmt, e: Stmt)
    ensures RenderAll([h] + (cs + (vs + (ws + [m, e]))))
      == Render(h) + (RenderAll(cs) + (RenderAll(vs) + (RenderAll(ws) + (Render(m) + Render(e)))))
  {
    RenderFive([h], cs, vs, ws, [m, e]);
    RenderSingle(h);
    RenderPair(m, e);
  }

  lemma RenderSingle(s: Stmt)
    ensures RenderAll([s]) == Render(s)
  {
    assert [s][1..] == [];
  }

  lemma RenderPair(s: Stmt, t: Stmt)
    ensures RenderAll([s, t]) == Render(s) + Render(t)
  {
    assert [s, t][1..] == [t];
    RenderSingle(t);
  }

  lemma RenderFive(a: seq<Stmt>, b: seq<Stmt>, c: seq<Stmt>, d: seq<Stmt>, f: seq<Stmt>)
    ensures RenderAll(a + (b + (c + (d + f)))) == RenderAll(a) + (RenderAll(b) + (RenderAll(c) + (RenderAll(d) + RenderAll(f))))
  {
    RenderAllAppend(d, f);
    RenderAllAppend(c, d + f);
    RenderAllAppend(b, c + (d + f));
    RenderAllAppend(a, b + (c + (d + f)));
  }


  // ---------------------------------------------------------------------
  // properties of matchcommand

  lemma {:induction false} ConstraintStmtsIndex(cs: seq<Group>)
    ensures |ConstraintStmts(cs)| == |cs|
    ensures forall i :: 0 <= i < |cs| ==> ConstraintStmts(cs)[i] == CommandUnpack("constraint", cs[i], [])
  {
    if cs != [] {
      var front := cs[..|cs| - 1];
      ConstraintStmtsIndex(front);
      forall i | 0 <= i < |cs| - 1 ensures ConstraintStmts(cs)[i] == ConstraintStmts(front)[i] && front[i] == cs[i] { }
    }
  }

  lemma {:induction false} ListStmtsIndex(es: seq<VaryEntry>)
    requires AllUnpackable(es)
    ensures |ListStmts(es)| == |es|
    ensures forall i :: 0 <= i < |es| ==> ListStmts(es)[i] == VaryListStmt(es[i])
  {
    if es != [] {
      var front := es[..|es| - 1];
      assert AllUnpackable(front) by {
        forall j | 0 <= j < |front| ensures !front[j].Scalar? { assert front[j] == es[j]; }
      }
      ListStmtsIndex(front);
      forall i | 0 <= i < |es| - 1 ensures ListStmts(es)[i] == ListStmts(front)[i] && front[i] == es[i] { }
    }
  }

  lemma {:induction false} MapStmtsIndex(items: seq<(string, VarySpec)>)
    ensures |MapStmts(items)| == |items|
    ensures forall i :: 0 <= i < |items| ==> MapStmts(items)[i] == VaryMapStmt(items[i])
  {
    if items != [] {
      var front := items[..|items| - 1];
      MapStmtsIndex(front);
      forall i | 0 <= i < |items| - 1 ensures MapStmts(items)[i] == MapStmts(front)[i] && front[i] == items[i] { }
    }
  }

  /** The layout of a match group: `match` first, then one `constraint`
      per constraint in order, the vary statements `vs`, a `weight` when
      the weights are a true value, the method, and `endmatch` last. */
  predicate MatchLayout(ss: seq<Stmt>, header: Stmt, constraints: seq<Group>, vs: seq<Stmt>,
                        weight: Group, mth: Method, fname: string)
  {
    && |ss| == 3 + |constraints| + |vs| + (if GroupTruthy(weight) then 1 else 0)
    && ss[0] == header
    && (forall i :: 0 <= i < |constraints| ==> ss[1 + i] == CommandUnpack("constraint", constraints[i], []))
    && (forall i :: 0 <= i < |vs| ==> ss[1 + |constraints| + i] == vs[i])
    && (GroupTruthy(weight) ==> ss[|ss| - 3] == CommandUnpack("weight", weight, []))
    && ss[|ss| - 2] == MethodStmt(mth)
    && ss[|ss| - 1] == EndStmt(fname)
  }

  lemma AssembledLayout(header: Stmt, constraints: seq<Group>, vs: seq<Stmt>, weight: Group, mth: Method, fname: string)
    ensures MatchLayout([header] + (ConstraintStmts(constraints) + (vs + (WeightStmts(weight) + [MethodStmt(mth), EndStmt(fname)]))),
                        header, constraints, vs, weight, mth, fname)
  {
    GroupLayout(header, ConstraintStmts(constraints), vs, WeightStmts(weight), MethodStmt(mth), EndStmt(fname));
    ConstraintStmtsIndex(constraints);
    LayoutFrom([header] + (ConstraintStmts(constraints) + (vs + (WeightStmts(weight) + [MethodStmt(mth), EndStmt(fname)]))),
               header, constraints, ConstraintStmts(constraints), vs, WeightStmts(weight), weight, mth, fname);
  }

  /** `MatchLayout` from where the parts sit, `cs` holding one `constraint`
      per constraint and `ws` the `weight` statement when there is one. */
  lemma LayoutFrom(ss: seq<Stmt>, header: Stmt, constraints: seq<Group>, cs: seq<Stmt>, vs: seq<Stmt>, ws: seq<Stmt>,
                   weight: Group, mth: Method, fname: string)
    requires Placed(ss, header, cs, vs, ws, MethodStmt(mth), EndStmt(fname))
    requires |cs| == |constraints|
    requires forall i :: 0 <= i < |constraints| ==> cs[i] == CommandUnpack("constraint", constraints[i], [])
    requires ws == if GroupTruthy(weight) then [CommandUnpack("weight", weight, [])] else []
    ensures MatchLayout(ss, header, constraints, vs, weight, mth, fname)
  {
    PlacedParts(ss, header, cs, |constraints|, vs, ws, MethodStmt(mth), EndStmt(fname));
    forall i | 0 <= i < |constraints| ensures ss[1 + i] == CommandUnpack("constraint", constraints[i], []) {
      assert ss[1 + i] == cs[i];
    }
  }

  /** `Placed` restated for a first part of length `n` and a third part of
      at most one element, in the terms `MatchLayout` uses. */
  lemma PlacedParts<T>(ss: seq<T>, h: T, cs: seq<T>, n: nat, vs: seq<T>, ws: seq<T>, m: T, e: T)
    requires Placed(ss, h, cs, vs, ws, m, e) && |cs| == n && |ws| <= 1
    ensures |ss| == 3 + n + |vs| + |ws| && ss[0] == h
    ensures forall i :: 0 <= i < n ==> ss[1 + i] == cs[i]
    ensures forall i :: 0 <= i < |vs| ==> ss[1 + n + i] == vs[i]
    ensures |ws| == 1 ==> ss[|ss| - 3] == ws[0]
    ensures ss[|ss| - 2] == m && ss[|ss| - 1] == e
  {
    if |ws| == 1 {
      assert ss[1 + |cs| + |vs| + 0] == ws[0];
    }
  }

  /** `matchcommand` fails exactly when `vary` is neither list nor mapping,
      or is a list with a scalar entry, and otherwise lays its group out as
      `MatchLayout` says. */
  lemma MatchShape(sequence: string, constraints: seq<Group>, vary: Vary, weight: Group,
                   mth: Method, fname: string, optics: Dict, init: Dict)
    ensures var r := MatchStatements(sequence, constraints, vary, weight, mth, fname, optics, init);
      && (r.Failure? <==> vary.VaryOther? || (vary.VaryList? && exists i :: 0 <= i < |vary.entries| && vary.entries[i].Scalar?))
      && (r.Failure? ==> r.error == if vary.VaryOther? then TypeError("vary must be list or dict.") else UnpackError("vary"))
      && (r.Success? ==> MatchLayout(r.value, HeaderStmt(sequence, MergeOptics(init, optics)), constraints,
                                     VaryStmts(vary).value, weight, mth, fname))
  {
    if VaryStmts(vary).Success? {
      AssembledLayout(HeaderStmt(sequence, MergeOptics(init, optics)), constraints, VaryStmts(vary).value, weight, mth, fname);
    }
  }

  /** Where each part sits in `ss`, laid out as `[h] + (cs + (vs + (ws + [m, e])))`. */
  predicate Placed<T(==)>(ss: seq<T>, h: T, cs: seq<T>, vs: seq<T>, ws: seq<T>, m: T, e: T)
  {
    && |ss| == 3 + |cs| + |vs| + |ws|
    && ss[0] == h
    && (forall i :: 0 <= i < |cs| ==> ss[1 + i] == cs[i])
    && (forall i :: 0 <= i < |vs| ==> ss[1 + |cs| + i] == vs[i])
    && (forall i :: 0 <= i < |ws| ==> ss[1 + |cs| + |vs| + i] == ws[i])
    && ss[|ss| - 2] == m && ss[|ss| - 1] == e
  }

  lemma GroupLayout<T>(h: T, cs: seq<T>, vs: seq<T>, ws: seq<T>, m: T, e: T)
    ensures Placed([h] + (cs + (vs + (ws + [m, e]))), h, cs, vs, ws, m, e)
  {
    var b := ws + [m, e];
    var c := vs + b;
    var d := cs + c;
    assert forall i :: 0 <= i < |vs| ==> c[i] == vs[i];
    assert forall i :: 0 <= i < |ws| ==> c[|vs| + i] == ws[i];
    assert forall i :: 0 <= i < |vs| ==> d[|cs| + i] == c[i];
    assert forall i :: 0 <= i < |ws| ==> d[|cs| + |vs| + i] == ws[i];
  }


  /** A vary mapping yields one statement per entry, in sorted key order:
      `name=<key>` after the unpacked arguments, or `name=<key>, step=<v>`. */
  lemma VaryMapOrder(d: seq<(string, VarySpec)>)
    ensures VaryStmts(VaryMap(d)).Success?
    ensures var vs := VaryStmts(VaryMap(d)).value;
      && |vs| == |d|
      && (forall i :: 0 <= i < |vs| ==> vs[i] == VaryMapStmt(SortByKey(d)[i]))
      && (forall i, j :: 0 <= i < j < |vs| ==> LexLe(SortByKey(d)[i].0, SortByKey(d)[j].0))
      && (forall e :: e in d ==> exists i :: 0 <= i < |vs| && vs[i] == VaryMapStmt(e))
  {
    var sd := SortByKey(d);
    MapStmtsIndex(sd);
    assert |sd| == |multiset(sd)| == |multiset(d)| == |d|;
    forall e | e in d
      ensures exists i :: 0 <= i < |sd| && MapStmts(sd)[i] == VaryMapStmt(e)
    {
      assert e in multiset(sd);
      var i := MemberIndex(sd, e);
      assert MapStmts(sd)[i] == VaryMapStmt(e);
    }
  }

  /** A vary list yields one statement per entry, in list order, unless an
      entry is a scalar, which makes the unpacking raise `TypeError`. */
  lemma VaryListOrder(es: seq<VaryEntry>)
    ensures VaryStmts(VaryList(es)).Success? <==> forall i :: 0 <= i < |es| ==> !es[i].Scalar?
    ensures VaryStmts(VaryList(es)).Failure? ==> VaryStmts(VaryList(es)).error == UnpackError("vary")
    ensures VaryStmts(VaryList(es)).Success? ==>
      var vs := VaryStmts(VaryList(es)).value;
      && |vs| == |es|
      && (forall i :: 0 <= i < |es| ==> vs[i] == VaryListStmt(es[i]))
  {
    if AllUnpackable(es) {
      ListStmtsIndex(es);
    }
  }

  /** The group does not depend on the order in which the vary mapping was built. */
  lemma VaryMapDeterministic(sequence: string, constraints: seq<Group>, d1: seq<(string, VarySpec)>,
                             d2: seq<(string, VarySpec)>, weight: Group, mth: Method, fname: string,
                             optics: Dict, init: Dict)
    requires DistinctKeys(d1) && DistinctKeys(d2) && multiset(d1) == multiset(d2)
    ensures MatchStatements(sequence, constraints, VaryMap(d1), weight, mth, fname, optics, init)
         == MatchStatements(sequence, constraints, VaryMap(d2), weight, mth, fname, optics, init)
  {
    SortByKeyDeterministic(d1, d2);
  }

  lemma {:induction false} MergeOpticsKeeps(init: Dict, optics: Dict, e: (string, Value))
    requires e in init
    requires forall o :: o in optics && o.1 != Nil ==> o.0 != e.0
    ensures e in MergeOptics(init, optics)
  {
    if optics != [] {
      assert optics[|optics| - 1] in optics;
      forall o | o in optics[..|optics| - 1] && o.1 != Nil ensures o.0 != e.0 {
        assert o in optics;
      }
      MergeOpticsKeeps(init, optics[..|optics| - 1], e);
    }
  }

  lemma MergeOpticsSnoc(init: Dict, optics: Dict, e: (string, Value))
    ensures MergeOptics(init, optics + [e])
      == if e.1 != Nil then Update(MergeOptics(init, optics), e.0, e.1) else MergeOptics(init, optics)
  {
    assert (optics + [e])[..|optics|] == optics;
  }

  /** Every given optics argument is stored into `twiss_init` under its own
      key, and every other entry of `twiss_init` survives. */
  lemma MergeOpticsArgs(init: Dict, betx: Value, bety: Value, alfx: Value, alfy: Value)
    ensures var m := MergeOptics(init, OpticsArgs(betx, bety, alfx, alfy));
      && (betx != Nil ==> ("betx", betx) in m)
      && (bety != Nil ==> ("bety", bety) in m)
      && (alfx != Nil ==> ("alfx", alfx) in m)
      && (alfy != Nil ==> ("alfy", alfy) in m)
      && (forall e :: e in init && e.0 !in ["betx", "bety", "alfx", "alfy"] ==> e in m)
      && (forall e :: e in m ==> e in init || e in OpticsArgs(betx, bety, alfx, alfy))
  {
    var o1, o2, o3, o4 := ("betx", betx), ("bety", bety), ("alfx", alfx), ("alfy", alfy);
    MergeOpticsSnoc(init, [], o1);
    MergeOpticsSnoc(init, [o1], o2);
    MergeOpticsSnoc(init, [o1, o2], o3);
    MergeOpticsSnoc(init, [o1, o2, o3], o4);
    assert [] + [o1] == [o1] && [o1] + [o2] == [o1, o2] && [o1, o2] + [o3] == [o1, o2, o3];
    assert [o1, o2, o3] + [o4] == OpticsArgs(betx, bety, alfx, alfy);
  }

  /** The given optics arguments appear among the arguments of the `match` header. */
  lemma HeaderHoldsOptics(sequence: string, init: Dict, betx: Value, bety: Value, alfx: Value, alfy: Value)
    ensures var h := HeaderStmt(sequence, MergeOptics(init, OpticsArgs(betx, bety, alfx, alfy)));
      && h.name == "match" && h.args[0] == Param("sequence", Str(sequence))
      && (betx != Nil ==> Param("betx", betx) in h.args)
      && (bety != Nil ==> Param("bety", bety) in h.args)
      && (alfx != Nil ==> Param("alfx", alfx) in h.args)
      && (alfy != Nil ==> Param("alfy", alfy) in h.args)
  {
    var m := MergeOptics(init, OpticsArgs(betx, bety, alfx, alfy));
    MergeOpticsArgs(init, betx, bety, alfx, alfy);
    var h := HeaderStmt(sequence, m);
    assert h.args == [Param("sequence", Str(sequence))] + GroupArgs(Mapping(m));
    if betx != Nil { MappingArgsHold(m, "betx", betx); }
    if bety != Nil { MappingArgsHold(m, "bety", bety); }
    if alfx != Nil { MappingArgsHold(m, "alfx", alfx); }
    if alfy != Nil { MappingArgsHold(m, "alfy", alfy); }
  }

  lemma NoKwargs(name: string, args: seq<Arg>)
    ensures Command(name, args, []) == Stmt(name, args)
  {
    assert args + [] == args;
  }

  lemma OneKwarg(name: string, a: (string, Value))
    ensures Command(name, [], [a]) == Stmt(name, [Param(a.0, a.1)])
  {
    assert [a][1..] == [];
    assert SortByKey([a]) == [a];
  }

  /** Two keyword arguments already in key order stay in that order. */
  lemma TwoKwargs(name: string, a: (string, Value), b: (string, Value))
    requires LexLe(a.0, b.0)
    ensures Command(name, [], [a, b]) == Stmt(name, [Param(a.0, a.1), Param(b.0, b.1)])
  {
    assert [a, b][1..] == [b] && [b][1..] == [];
    assert SortByKey([b]) == [b];
    assert SortByKey([a, b]) == Insert(a, [b]) == [a, b];
  }

  lemma UnpackTwo(name: string, a: (string, Value), b: (string, Value))
    requires LexLe(a.0, b.0)
    ensures CommandUnpack(name, Mapping([a, b]), []) == Stmt(name, [Param(a.0, a.1), Param(b.0, b.1)])
  {
    TwoKwargs(name, a, b);
    NoKwargs(name, [Param(a.0, a.1), Param(b.0, b.1)]);
  }

  lemma UnpackItems(name: string, args: seq<Arg>)
    ensures CommandUnpack(name, Items(args), []) == Stmt(name, args)
  {
    NoKwargs(name, args);
  }

  lemma TwoConstraints(c1: Group, c2: Group)
    ensures ConstraintStmts([c1, c2]) == [CommandUnpack("constraint", c1, []), CommandUnpack("constraint", c2, [])]
  {
    OneConstraint(c1);
    assert [c1, c2][..1] == [c1];
  }

  lemma TwoVaryEntries(e1: VaryEntry, e2: VaryEntry)
    requires !e1.Scalar? && !e2.Scalar?
    ensures ListStmts([e1, e2]) == [VaryListStmt(e1), VaryListStmt(e2)]
  {
    assert ListStmts([e1]) == [VaryListStmt(e1)] by { assert [e1][..0] == []; }
    assert [e1, e2][..1] == [e1];
  }

  lemma HeaderNoOptics(sequence: string)
    ensures HeaderStmt(sequence, MergeOptics([], OpticsArgs(Nil, Nil, Nil, Nil))) == Stmt("match", [Param("sequence", Str(sequence))])
  {
    MergeNoOptics([]);
    NoKwargs("match", [Param("sequence", Str(sequence))]);
  }

  lemma MergeNoOptics(init: Dict)
    ensures MergeOptics(init, OpticsArgs(Nil, Nil, Nil, Nil)) == init
  {
    var o := OpticsArgs(Nil, Nil, Nil, Nil);
    MergeOpticsSnoc(init, [], o[0]);
    MergeOpticsSnoc(init, [o[0]], o[1]);
    MergeOpticsSnoc(init, [o[0], o[1]], o[2]);
    MergeOpticsSnoc(init, [o[0], o[1], o[2]], o[3]);
    assert [] + [o[0]] == [o[0]] && [o[0]] + [o[1]] == [o[0], o[1]] && [o[0], o[1]] + [o[2]] == [o[0], o[1], o[2]];
    assert [o[0], o[1], o[2]] + [o[3]] == o;
  }

  /** `MatchStatements` from its parts. */
  lemma MatchAssembly(sequence: string, constraints: seq<Group>, vary: Vary, weight: Group,
                      mth: Method, fname: string, optics: Dict, init: Dict,
                      h: Stmt, cs: seq<Stmt>, vs: seq<Stmt>, ws: seq<Stmt>, m: Stmt, e: Stmt)
    requires HeaderStmt(sequence, MergeOptics(init, optics)) == h
    requires ConstraintStmts(constraints) == cs && VaryStmts(vary) == Success(vs)
    requires WeightStmts(weight) == ws && MethodStmt(mth) == m && EndStmt(fname) == e
    ensures MatchStatements(sequence, constraints, vary, weight, mth, fname, optics, init)
      == Success([h] + (cs + (vs + (ws + [m, e]))))
  {
  }

  lemma ExampleListConstraints(three: Value)
    ensures ConstraintStmts([Mapping([("betx", three), ("range", Str("#e"))]), Items([Cond("bety", "<", three)])])
      == [Stmt("constraint", [Param("betx", three), Param("range", Str("#e"))]), Stmt("constraint", [Cond("bety", "<", three)])]
  {
    TwoConstraints(Mapping([("betx", three), ("range", Str("#e"))]), Items([Cond("bety", "<", three)]));
    UnpackTwo("constraint", ("betx", three), ("range", Str("#e")));
    UnpackItems("constraint", [Cond("bety", "<", three)]);
  }

  lemma ExampleListVary(tiny: Value)
    ensures VaryStmts(VaryList([Named("K1"), Unpacked(Mapping([("name", Str("K2")), ("step", tiny)]))]))
      == Success([Stmt("vary", [Param("name", Str("K1"))]), Stmt("vary", [Param("name", Str("K2")), Param("step", tiny)])])
  {
    TwoVaryEntries(Named("K1"), Unpacked(Mapping([("name", Str("K2")), ("step", tiny)])));
    OneKwarg("vary", ("name", Str("K1")));
    UnpackTwo("vary", ("name", Str("K2")), ("step", tiny));
  }

  lemma ExampleListTail(one: Value, two: Value, hundred: Value, tiny: Value)
    ensures WeightStmts(Mapping([("betx", one), ("bety", two)])) == [Stmt("weight", [Param("betx", one), Param("bety", two)])]
    ensures MethodStmt(Method("lmdif", Some(Mapping([("calls", hundred), ("tolerance", tiny)]))))
      == Stmt("lmdif", [Param("calls", hundred), Param("tolerance", tiny)])
    ensures EndStmt("") == Stmt("endmatch", [])
  {
    UnpackTwo("weight", ("betx", one), ("bety", two));
    UnpackTwo("lmdif", ("calls", hundred), ("tolerance", tiny));
    NoKwargs("endmatch", []);
  }

  /** The first example of `matchcommand`'s documentation, for any values
      of its numbers: constraints in order with mapping keys sorted, a bare
      vary name, the weight, then the method with its options. */
  lemma MatchExampleList(sequence: string, three: Value, one: Value, two: Value, hundred: Value, tiny: Value)
    ensures MatchStatements(
      sequence,
      [Mapping([("betx", three), ("range", Str("#e"))]), Items([Cond("bety", "<", three)])],
      VaryList([Named("K1"), Unpacked(Mapping([("name", Str("K2")), ("step", tiny)]))]),
      Mapping([("betx", one), ("bety", two)]),
      Method("lmdif", Some(Mapping([("calls", hundred), ("tolerance", tiny)]))),
      "", OpticsArgs(Nil, Nil, Nil, Nil), [])
      == Success([
        Stmt("match", [Param("sequence", Str(sequence))]),
        Stmt("constraint", [Param("betx", three), Param("range", Str("#e"))]),
        Stmt("constraint", [Cond("bety", "<", three)]),
        Stmt("vary", [Param("name", Str("K1"))]),
        Stmt("vary", [Param("name", Str("K2")), Param("step", tiny)]),
        Stmt("weight", [Param("betx", one), Param("bety", two)]),
        Stmt("lmdif", [Param("calls", hundred), Param("tolerance", tiny)]),
        Stmt("endmatch", [])])
  {
    var h := Stmt("match", [Param("sequence", Str(sequence))]);
    var c1 := Stmt("constraint", [Param("betx", three), Param("range", Str("#e"))]);
    var c2 := Stmt("constraint", [Cond("bety", "<", three)]);
    var v1 := Stmt("vary", [Param("name", Str("K1"))]);
    var v2 := Stmt("vary", [Param("name", Str("K2")), Param("step", tiny)]);
    var ws := Stmt("weight", [Param("betx", one), Param("bety", two)]);
    var l := Stmt("lmdif", [Param("calls", hundred), Param("tolerance", tiny)]);
    var e := Stmt("endmatch", []);
    HeaderNoOptics(sequence);
    ExampleListConstraints(three);
    ExampleListVary(tiny);
    ExampleListTail(one, two, hundred, tiny);
    MatchAssembly(sequence,
      [Mapping([("betx", three), ("range", Str("#e"))]), Items([Cond("bety", "<", three)])],
      VaryList([Named("K1"), Unpacked(Mapping([("name", Str("K2")), ("step", tiny)]))]),
      Mapping([("betx", one), ("bety", two)]),
      Method("lmdif", Some(Mapping([("calls", hundred), ("tolerance", tiny)]))),
      "", OpticsArgs(Nil, Nil, Nil, Nil), [], h, [c1, c2], [v1, v2], [ws], l, e);
    FlattenEight(h, c1, c2, v1, v2, ws, l, e);
  }

  lemma FlattenEight<T>(a: T, b: T, c: T, d: T, e: T, f: T, g: T, h: T)
    ensures [a] + ([b, c] + ([d, e] + ([f] + [g, h]))) == [a, b, c, d, e, f, g, h]
  {
  }

  lemma SortTwo<V>(a: (string, V), b: (string, V))
    requires LexLe(a.0, b.0)
    ensures SortByKey([a, b]) == [a, b]
  {
    assert [a, b][1..] == [b] && [b][1..] == [];
    assert SortByKey([b]) == [b];
  }

  lemma UnpackOneWithName(name: string, a: (string, Value), k: string)
    ensures CommandUnpack(name, Mapping([a]), [("name", Str(k))]) == Stmt(name, [Param(a.0, a.1), Param("name", Str(k))])
  {
    assert [a][1..] == [];
    assert SortByKey([a]) == [a];
    assert SortByKey([("name", Str(k))]) == [("name", Str(k))];
  }

  lemma OneConstraint(c: Group)
    ensures ConstraintStmts([c]) == [CommandUnpack("constraint", c, [])]
  {
    assert [c][..0] == [];
  }

  lemma TwoMapEntries(a: (string, VarySpec), b: (string, VarySpec))
    ensures MapStmts([a, b]) == [VaryMapStmt(a), VaryMapStmt(b)]
  {
    assert MapStmts([a]) == [VaryMapStmt(a)] by { assert [a][..0] == []; }
    assert [a, b][..1] == [a];
  }

  lemma ExampleMapVary(three: Value, tiny: Value)
    ensures VaryStmts(VaryMap([("K1", Structured(Mapping([("upper", three)]))), ("K2", Step(tiny))]))
      == Success([Stmt("vary", [Param("upper", three), Param("name", Str("K1"))]),
                  Stmt("vary", [Param("name", Str("K2")), Param("step", tiny)])])
  {
    var a, b := ("K1", Structured(Mapping([("upper", three)]))), ("K2", Step(tiny));
    SortTwo(a, b);
    MapPairStmts(a, b, Mapping([("upper", three)]), tiny);
  }

  lemma MapPairStmts(a: (string, VarySpec), b: (string, VarySpec), g: Group, step: Value)
    requires g.Mapping? && |g.entries| == 1 && a.1 == Structured(g) && b.1 == Step(step)
    ensures MapStmts([a, b]) == [Stmt("vary", [Param(g.entries[0].0, g.entries[0].1), Param("name", Str(a.0))]),
                                 Stmt("vary", [Param("name", Str(b.0)), Param("step", step)])]
  {
    TwoMapEntries(a, b);
    assert VaryMapStmt(a) == Stmt("vary", [Param(g.entries[0].0, g.entries[0].1), Param("name", Str(a.0))]) by {
      assert g == Mapping([g.entries[0]]);
      UnpackOneWithName("vary", g.entries[0], a.0);
    }
    assert VaryMapStmt(b) == Stmt("vary", [Param("name", Str(b.0)), Param("step", step)]) by {
      TwoKwargs("vary", ("name", Str(b.0)), ("step", step));
    }
  }

  lemma ExampleMapTail(fname: string)
    ensures WeightStmts(Items([])) == []
    ensures MethodStmt(Method("lmdif", None)) == Stmt("lmdif", [])
    ensures fname != "" ==> EndStmt(fname) == Stmt("endmatch", [Param("knobfile", Str(fname))])
  {
    NoKwargs("lmdif", []);
    OneKwarg("endmatch", ("knobfile", Str(fname)));
  }

  /** The second example of `matchcommand`'s documentation: a vary mapping
      in key order, its unpacked arguments before `name`, a scalar as
      `step`, no weight, the default method and the knob file. */
  lemma MatchExampleMap(sequence: string, three: Value, tiny: Value, fname: string)
    requires fname != ""
    ensures MatchStatements(
      sequence,
      [Mapping([("betx", three), ("range", Str("#e"))])],
      VaryMap([("K1", Structured(Mapping([("upper", three)]))), ("K2", Step(tiny))]),
      Items([]), Method("lmdif", None), fname, OpticsArgs(Nil, Nil, Nil, Nil), [])
      == Success([
        Stmt("match", [Param("sequence", Str(sequence))]),
        Stmt("constraint", [Param("betx", three), Param("range", Str("#e"))]),
        Stmt("vary", [Param("upper", three), Param("name", Str("K1"))]),
        Stmt("vary", [Param("name", Str("K2")), Param("step", tiny)]),
        Stmt("lmdif", []),
        Stmt("endmatch", [Param("knobfile", Str(fname))])])
  {
    var h := Stmt("match", [Param("sequence", Str(sequence))]);
    var c := Stmt("constraint", [Param("betx", three), Param("range", Str("#e"))]);
    var v1 := Stmt("vary", [Param("upper", three), Param("name", Str("K1"))]);
    var v2 := Stmt("vary", [Param("name", Str("K2")), Param("step", tiny)]);
    var l := Stmt("lmdif", []);
    var e := Stmt("endmatch", [Param("knobfile", Str(fname))]);
    HeaderNoOptics(sequence);
    OneConstraint(Mapping([("betx", three), ("range", Str("#e"))]));
    UnpackTwo("constraint", ("betx", three), ("range", Str("#e")));
    ExampleMapVary(three, tiny);
    ExampleMapTail(fname);
    MatchAssembly(sequence, [Mapping([("betx", three), ("range", Str("#e"))])],
      VaryMap([("K1", Structured(Mapping([("upper", three)]))), ("K2", Step(tiny))]),
      Items([]), Method("lmdif", None), fname, OpticsArgs(Nil, Nil, Nil, Nil), [], h, [c], [v1, v2], [], l, e);
    FlattenSix(h, c, v1, v2, l, e);
  }

  lemma FlattenSix<T>(a: T, b: T, c: T, d: T, g: T, h: T)
    ensures [a] + ([b] + ([c, d] + ([] + [g, h]))) == [a, b, c, d, g, h]
  {
  }

  lemma RenderNone(n: string)
    ensures Render(Stmt(n, [])) == n + ";\n"
  {
  }

  lemma RenderOne(n: string, a: Arg)
    requires !Omitted(a)
    ensures Render(Stmt(n, [a])) == n + ", " + ArgText(a) + ";\n"
  {
    assert [a][1..] == [];
    assert ArgsText([a]) == ", " + ArgText(a);
  }

  lemma RenderTwo(n: string, a: Arg, b: Arg)
    requires !Omitted(a) && !Omitted(b)
    ensures Render(Stmt(n, [a, b])) == n + ", " + ArgText(a) + ", " + ArgText(b) + ";\n"
  {
    assert [a, b][1..] == [b] && [b][1..] == [];
    assert ArgsText([b]) == ", " + ArgText(b);
    assert ArgsText([a, b]) == ", " + ArgText(a) + (", " + ArgText(b));
  }

  // The text of each statement of the two documented examples; the values
  // are parameters fixed by the precondition, which keeps the verifier from
  // evaluating the whole statement list on literals.

  lemma MatchLine()
    ensures Render(Stmt("match", [Param("sequence", Str("lhc"))])) == "match, sequence=lhc;\n"
  {
    assert Render(Stmt("match", [Param("sequence", Str("lhc"))])) == "match" + ", " + "sequence=lhc" + ";\n" by {
      RenderOne("match", Param("sequence", Str("lhc")));
    }
  }

  lemma ConstraintLine(three: Value)
    requires three == Num("3", false)
    ensures Render(Stmt("constraint", [Param("betx", three), Param("range", Str("#e"))])) == "constraint, betx=3, range=#e;\n"
  {
    RenderTwo("constraint", Param("betx", three), Param("range", Str("#e")));
  }

  lemma CondLine(three: Value)
    requires three == Num("3", false)
    ensures Render(Stmt("constraint", [Cond("bety", "<", three)])) == "constraint, bety<3;\n"
  {
    RenderOne("constraint", Cond("bety", "<", three));
  }

  lemma VaryNameLine()
    ensures Render(Stmt("vary", [Param("name", Str("K1"))])) == "vary, name=K1;\n"
  {
    RenderOne("vary", Param("name", Str("K1")));
  }

  lemma VaryStepLine(tiny: Value)
    requires tiny == Num("1e-06", false)
    ensures Render(Stmt("vary", [Param("name", Str("K2")), Param("step", tiny)])) == "vary, name=K2, step=1e-06;\n"
  {
    RenderTwo("vary", Param("name", Str("K2")), Param("step", tiny));
  }

  lemma VaryUpperLine(three: Value)
    requires three == Num("3", false)
    ensures Render(Stmt("vary", [Param("upper", three), Param("name", Str("K1"))])) == "vary, upper=3, name=K1;\n"
  {
    RenderTwo("vary", Param("upper", three), Param("name", Str("K1")));
  }

  lemma WeightLine(one: Value, two: Value)
    requires one == Num("1", false) && two == Num("2", false)
    ensures Render(Stmt("weight", [Param("betx", one), Param("bety", two)])) == "weight, betx=1, bety=2;\n"
  {
    RenderTwo("weight", Param("betx", one), Param("bety", two));
  }

  lemma MethodLine(tiny: Value, hundred: Value)
    requires tiny == Num("1e-06", false) && hundred == Num("100", false)
    ensures Render(Stmt("lmdif", [Param("calls", hundred), Param("tolerance", tiny)])) == "lmdif, calls=100, tolerance=1e-06;\n"
  {
    assert Render(Stmt("lmdif", [Param("calls", hundred), Param("tolerance", tiny)]))
        == "lmdif" + ", " + "calls=100" + ", " + "tolerance=1e-06" + ";\n" by {
      RenderTwo("lmdif", Param("calls", hundred), Param("tolerance", tiny));
    }
    MethodLineText();
  }

  lemma MethodLineText()
    ensures "lmdif" + ", " + "calls=100" + ", " + "tolerance=1e-06" + ";\n" == "lmdif, calls=100, tolerance=1e-06;\n"
  {
  }

  lemma BareMethodLine()
    ensures Render(Stmt("lmdif", [])) == "lmdif;\n"
  {
    RenderNone("lmdif");
  }

  lemma EndLine()
    ensures Render(Stmt("endmatch", [])) == "endmatch;\n"
  {
    RenderNone("endmatch");
  }

  lemma KnobfileLine()
    ensures Render(Stmt("endmatch", [Param("knobfile", Str("knobs.txt"))])) == "endmatch, knobfile=knobs.txt;\n"
  {
    assert Render(Stmt("endmatch", [Param("knobfile", Str("knobs.txt"))]))
        == "endmatch" + ", " + "knobfile=knobs.txt" + ";\n" by {
      RenderOne("endmatch", Param("knobfile", Str("knobs.txt")));
    }
  }

  lemma ExampleListLines(three: Value, one: Value, two: Value, hundred: Value, tiny: Value)
    requires three == Num("3", false) && one == Num("1", false) && two == Num("2", false)
    requires hundred == Num("100", false) && tiny == Num("1e-06", false)
    ensures var r := Success([
        Stmt("match", [Param("sequence", Str("lhc"))]),
        Stmt("constraint", [Param("betx", three), Param("range", Str("#e"))]),
        Stmt("constraint", [Cond("bety", "<", three)]),
        Stmt("vary", [Param("name", Str("K1"))]),
        Stmt("vary", [Param("name", Str("K2")), Param("step", tiny)]),
        Stmt("weight", [Param("betx", one), Param("bety", two)]),
        Stmt("lmdif", [Param("calls", hundred), Param("tolerance", tiny)]),
        Stmt("endmatch", [])]);
      && Render(r.value[0]) == "match, sequence=lhc;\n"
      && Render(r.value[1]) == "constraint, betx=3, range=#e;\n"
      && Render(r.value[2]) == "constraint, bety<3;\n"
      && Render(r.value[3]) == "vary, name=K1;\n"
      && Render(r.value[4]) == "vary, name=K2, step=1e-06;\n"
      && Render(r.value[5]) == "weight, betx=1, bety=2;\n"
      && Render(r.value[6]) == "lmdif, calls=100, tolerance=1e-06;\n"
      && Render(r.value[7]) == "endmatch;\n"
  {
    MatchLine(); ConstraintLine(three); CondLine(three); VaryNameLine(); VaryStepLine(tiny); WeightLine(one, two); MethodLine(tiny, hundred); EndLine();
  }

  /** The first example of `matchcommand`'s documentation, line by line as
      printed there. */
  lemma MatchExampleListText(three: Value, one: Value, two: Value, hundred: Value, tiny: Value)
    requires three == Num("3", false) && one == Num("1", false) && two == Num("2", false)
    requires hundred == Num("100", false) && tiny == Num("1e-06", false)
    ensures var r := MatchStatements(
        "lhc",
        [Mapping([("betx", three), ("range", Str("#e"))]), Items([Cond("bety", "<", three)])],
        VaryList([Named("K1"), Unpacked(Mapping([("name", Str("K2")), ("step", tiny)]))]),
        Mapping([("betx", one), ("bety", two)]),
        Method("lmdif", Some(Mapping([("calls", hundred), ("tolerance", tiny)]))),
        "", OpticsArgs(Nil, Nil, Nil, Nil), []);
      && r.Success? && |r.value| == 8
      && Render(r.value[0]) == "match, sequence=lhc;\n"
      && Render(r.value[1]) == "constraint, betx=3, range=#e;\n"
      && Render(r.value[2]) == "constraint, bety<3;\n"
      && Render(r.value[3]) == "vary, name=K1;\n"
      && Render(r.value[4]) == "vary, name=K2, step=1e-06;\n"
      && Render(r.value[5]) == "weight, betx=1, bety=2;\n"
      && Render(r.value[6]) == "lmdif, calls=100, tolerance=1e-06;\n"
      && Render(r.value[7]) == "endmatch;\n"
  {
    MatchExampleList("lhc", three, one, two, hundred, tiny);
    ExampleListLines(three, one, two, hundred, tiny);
  }

  lemma ExampleMapLines(three: Value, tiny: Value)
    requires three == Num("3", false) && tiny == Num("1e-06", false)
    ensures var r := Success([
        Stmt("match", [Param("sequence", Str("lhc"))]),
        Stmt("constraint", [Param("betx", three), Param("range", Str("#e"))]),
        Stmt("vary", [Param("upper", three), Param("name", Str("K1"))]),
        Stmt("vary", [Param("name", Str("K2")), Param("step", tiny)]),
        Stmt("lmdif", []),
        Stmt("endmatch", [Param("knobfile", Str("knobs.txt"))])]);
      && Render(r.value[0]) == "match, sequence=lhc;\n"
      && Render(r.value[1]) == "constraint, betx=3, range=#e;\n"
      && Render(r.value[2]) == "vary, upper=3, name=K1;\n"
      && Render(r.value[3]) == "vary, name=K2, step=1e-06;\n"
      && Render(r.value[4]) == "lmdif;\n"
      && Render(r.value[5]) == "endmatch, knobfile=knobs.txt;\n"
  {
    MatchLine(); ConstraintLine(three); VaryUpperLine(three); VaryStepLine(tiny); BareMethodLine(); KnobfileLine();
  }

  /** The second example of `matchcommand`'s documentation, line by line as
      printed there: the vary dict in sorted key order, `lmdif` without
      options and the knob file on `endmatch`. */
  lemma MatchExampleMapText(three: Value, tiny: Value)
    requires three == Num("3", false) && tiny == Num("1e-06", false)
    ensures var r := MatchStatements(
        "lhc",
        [Mapping([("betx", three), ("range", Str("#e"))])],
        VaryMap([("K1", Structured(Mapping([("upper", three)]))), ("K2", Step(tiny))]),
        Items([]), Method("lmdif", None), "knobs.txt", OpticsArgs(Nil, Nil, Nil, Nil), []);
      && r.Success? && |r.value| == 6
      && Render(r.value[0]) == "match, sequence=lhc;\n"
      && Render(r.value[1]) == "constraint, betx=3, range=#e;\n"
      && Render(r.value[2]) == "vary, upper=3, name=K1;\n"
      && Render(r.value[3]) == "vary, name=K2, step=1e-06;\n"
      && Render(r.value[4]) == "lmdif;\n"
      && Render(r.value[5]) == "endmatch, knobfile=knobs.txt;\n"
  {
    MatchExampleMap("lhc", three, tiny, "knobs.txt");
    ExampleMapLines(three, tiny);
  }
}

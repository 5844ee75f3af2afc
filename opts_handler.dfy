/** The program's option handler (ProgramOptsHandler.cpp): defaults, dispatch of
    each `--name=value` argument to one parameter, the quoted-string reader and
    the projection onto the solver's parameters. `std::atoi`/`std::atof` are
    opaque conversions of the value text. */
module OptsHandler {
  import opened ProgramOpts
  import Grids

  /** ProgramParams without the plot switches, which the handler never sets. */
  datatype ProgramParams = ProgramParams(
    xLabel: string, yLabel: string, potentialLabel: string, errorLabel: string,
    wTarget: real, relaxationParamInitial: real, relaxationParamMin: real,
    fieldRelaxParamInitial: real, fieldRelaxParamMin: real,
    fieldModelRelaxParamInitial: real, fieldModelRelaxParamMin: real,
    accuracy: real, fieldAccuracy: real, chiInitial: real, chiTarget: real,
    fieldModelChi: real, fieldInfinityPosMultiplier: real,
    windowWidth: int, windowHeight: int, splitsNum: int,
    fieldSurfaceSplitsNum: int, fieldInternalSplitsNum: int, fieldExternalSplitsNum: int,
    iterationsMaxNum: int, fieldIterationsMaxNum: int, resultsNumW: int, resultsNumChi: int,
    isEqualAxis: bool, isDimensionless: bool, isRightSweepPedantic: bool,
    isMainProblemEnabled: bool, isFieldModelProblemEnabled: bool)

  /** The solver's parameters as problemParameters fills them. */
  datatype ProblemParams = ProblemParams(
    xLabel: string, yLabel: string, potentialLabel: string, errorLabel: string,
    accuracy: real, fieldAccuracy: real, chi: real, wTarget: real,
    relaxationParamInitial: real, fieldRelaxParamInitial: real, fieldModelRelaxParamInitial: real,
    relaxationParamMin: real, fieldRelaxParamMin: real, fieldModelRelaxParamMin: real,
    fieldModelChi: real, iterationsMaxNum: int, fieldIterationsMaxNum: int,
    resultsNum: int, splitsNum: int, gridParams: Grids.STGridParams,
    isRightSweepPedantic: bool, isDimensionless: bool)

  /** `std::atoi` and `std::atof` applied to the text after the option's '='. */
  datatype Conversions = Conversions(atoi: string -> int, atof: string -> real)

  /** The exception readStringValue throws, or a value. */
  datatype Result<T> = Ok(value: T) | Failure

  /** The OptsIds enumeration: option id k (1 to 32) sets exactly one parameter,
      which this model calls field k. */
  const OptionsCount: int := 32

  datatype Kind = IntOption | RealOption | FlagOption | TextOption | UnknownOption

  datatype Value = IntValue(i: int) | RealValue(x: real) | FlagValue(b: bool) | TextValue(s: string)

  function KindOf(id: int): Kind
  {
    if id == 1 || id == 2 || 9 <= id <= 16 then IntOption
    else if 3 <= id <= 8 || 17 <= id <= 23 then RealOption
    else if 24 <= id <= 28 then FlagOption
    else if 29 <= id <= 32 then TextOption
    else UnknownOption
  }

  predicate Fits(k: int, v: Value)
  {
    match KindOf(k)
    case IntOption => v.IntValue?
    case RealOption => v.RealValue?
    case FlagOption => v.FlagValue?
    case TextOption => v.TextValue?
    case UnknownOption => false
  }

  /** The parameter that option id k assigns. */
  function Field(p: ProgramParams, k: int): (v: Value)
    requires 1 <= k <= OptionsCount
    ensures Fits(k, v)
  {
    match k
    case 1 => IntValue(p.windowWidth)
    case 2 => IntValue(p.windowHeight)
    case 3 => RealValue(p.wTarget)
    case 4 => RealValue(p.chiInitial)
    case 5 => RealValue(p.chiTarget)
    case 6 => RealValue(p.relaxationParamInitial)
    case 7 => RealValue(p.relaxationParamMin)
    case 8 => RealValue(p.accuracy)
    case 9 => IntValue(p.splitsNum)
    case 10 => IntValue(p.iterationsMaxNum)
    case 11 => IntValue(p.resultsNumW)
    case 12 => IntValue(p.resultsNumChi)
    case 13 => IntValue(p.fieldSurfaceSplitsNum)
    case 14 => IntValue(p.fieldInternalSplitsNum)
    case 15 => IntValue(p.fieldExternalSplitsNum)
    case 16 => IntValue(p.fieldIterationsMaxNum)
    case 17 => RealValue(p.fieldAccuracy)
    case 18 => RealValue(p.fieldRelaxParamInitial)
    case 19 => RealValue(p.fieldRelaxParamMin)
    case 20 => RealValue(p.fieldModelRelaxParamInitial)
    case 21 => RealValue(p.fieldModelRelaxParamMin)
    case 22 => RealValue(p.fieldModelChi)
    case 23 => RealValue(p.fieldInfinityPosMultiplier)
    case 24 => FlagValue(p.isEqualAxis)
    case 25 => FlagValue(p.isDimensionless)
    case 26 => FlagValue(p.isRightSweepPedantic)
    case 27 => FlagValue(p.isMainProblemEnabled)
    case 28 => FlagValue(p.isFieldModelProblemEnabled)
    case 29 => TextValue(p.xLabel)
    case 30 => TextValue(p.yLabel)
    case 31 => TextValue(p.potentialLabel)
    case _ => TextValue(p.errorLabel)
  }

  /** The parameters with field k blanked out: two parameter sets that agree after
      erasing k differ at most in field k. */
  function Erase(p: ProgramParams, k: int): ProgramParams
    requires 1 <= k <= OptionsCount
  {
    match k
    case 1 => p.(windowWidth := 0)
    case 2 => p.(windowHeight := 0)
    case 3 => p.(wTarget := 0.0)
    case 4 => p.(chiInitial := 0.0)
    case 5 => p.(chiTarget := 0.0)
    case 6 => p.(relaxationParamInitial := 0.0)
    case 7 => p.(relaxationParamMin := 0.0)
    case 8 => p.(accuracy := 0.0)
    case 9 => p.(splitsNum := 0)
    case 10 => p.(iterationsMaxNum := 0)
    case 11 => p.(resultsNumW := 0)
    case 12 => p.(resultsNumChi := 0)
    case 13 => p.(fieldSurfaceSplitsNum := 0)
    case 14 => p.(fieldInternalSplitsNum := 0)
    case 15 => p.(fieldExternalSplitsNum := 0)
    case 16 => p.(fieldIterationsMaxNum := 0)
    case 17 => p.(fieldAccuracy := 0.0)
    case 18 => p.(fieldRelaxParamInitial := 0.0)
    case 19 => p.(fieldRelaxParamMin := 0.0)
    case 20 => p.(fieldModelRelaxParamInitial := 0.0)
    case 21 => p.(fieldModelRelaxParamMin := 0.0)
    case 22 => p.(fieldModelChi := 0.0)
    case 23 => p.(fieldInfinityPosMultiplier := 0.0)
    case 24 => p.(isEqualAxis := false)
    case 25 => p.(isDimensionless := false)
    case 26 => p.(isRightSweepPedantic := false)
    case 27 => p.(isMainProblemEnabled := false)
    case 28 => p.(isFieldModelProblemEnabled := false)
    case 29 => p.(xLabel := "")
    case 30 => p.(yLabel := "")
    case 31 => p.(potentialLabel := "")
    case _ => p.(errorLabel := "")
  }

  predicate FlagsAtLeast(p: ProgramParams, q: ProgramParams)
  {
    (p.isEqualAxis ==> q.isEqualAxis) && (p.isDimensionless ==> q.isDimensionless)
    && (p.isRightSweepPedantic ==> q.isRightSweepPedantic)
    && (p.isMainProblemEnabled ==> q.isMainProblemEnabled)
    && (p.isFieldModelProblemEnabled ==> q.isFieldModelProblemEnabled)
  }

  /** The assignment one `case` of handleOpt performs: field k takes v and no
      other field changes. */
  function Assign(p: ProgramParams, k: int, v: Value): (q: ProgramParams)
    requires 1 <= k <= OptionsCount && Fits(k, v)
    ensures Field(q, k) == v
    ensures Erase(q, k) == Erase(p, k)
    ensures (v.FlagValue? ==> v.b) ==> FlagsAtLeast(p, q)
  {
    if v.IntValue? then AssignInt(p, k, v.i)
    else if v.RealValue? then AssignReal(p, k, v.x)
    else if v.FlagValue? then AssignFlag(p, k, v.b)
    else AssignText(p, k, v.s)
  }

  function AssignInt(p: ProgramParams, k: int, i: int): (q: ProgramParams)
    requires 1 <= k <= OptionsCount && KindOf(k) == IntOption
    ensures Field(q, k) == IntValue(i) && Erase(q, k) == Erase(p, k) && FlagsAtLeast(p, q)
  {
    match k
    case 1 => p.(windowWidth := i)
    case 2 => p.(windowHeight := i)
    case 9 => p.(splitsNum := i)
    case 10 => p.(iterationsMaxNum := i)
    case 11 => p.(resultsNumW := i)
    case 12 => p.(resultsNumChi := i)
    case 13 => p.(fieldSurfaceSplitsNum := i)
    case 14 => p.(fieldInternalSplitsNum := i)
    case 15 => p.(fieldExternalSplitsNum := i)
    case _ => p.(fieldIterationsMaxNum := i)
  }

  function AssignReal(p: ProgramParams, k: int, x: real): (q: ProgramParams)
    requires 1 <= k <= OptionsCount && KindOf(k) == RealOption
    ensures Field(q, k) == RealValue(x) && Erase(q, k) == Erase(p, k) && FlagsAtLeast(p, q)
  {
    match k
    case 3 => p.(wTarget := x)
    case 4 => p.(chiInitial := x)
    case 5 => p.(chiTarget := x)
    case 6 => p.(relaxationParamInitial := x)
    case 7 => p.(relaxationParamMin := x)
    case 8 => p.(accuracy := x)
    case 17 => p.(fieldAccuracy := x)
    case 18 => p.(fieldRelaxParamInitial := x)
    case 19 => p.(fieldRelaxParamMin := x)
    case 20 => p.(fieldModelRelaxParamInitial := x)
    case 21 => p.(fieldModelRelaxParamMin := x)
    case 22 => p.(fieldModelChi := x)
    case _ => p.(fieldInfinityPosMultiplier := x)
  }

  function AssignFlag(p: ProgramParams, k: int, b: bool): (q: ProgramParams)
    requires 1 <= k <= OptionsCount && KindOf(k) == FlagOption
    ensures Field(q, k) == FlagValue(b) && Erase(q, k) == Erase(p, k)
    ensures b ==> FlagsAtLeast(p, q)
  {
    match k
    case 24 => p.(isEqualAxis := b)
    case 25 => p.(isDimensionless := b)
    case 26 => p.(isRightSweepPedantic := b)
    case 27 => p.(isMainProblemEnabled := b)
    case _ => p.(isFieldModelProblemEnabled := b)
  }

  function AssignText(p: ProgramParams, k: int, t: string): (q: ProgramParams)
    requires 1 <= k <= OptionsCount && KindOf(k) == TextOption
    ensures Field(q, k) == TextValue(t) && Erase(q, k) == Erase(p, k) && FlagsAtLeast(p, q)
  {
    match k
    case 29 => p.(xLabel := t)
    case 30 => p.(yLabel := t)
    case 31 => p.(potentialLabel := t)
    case _ => p.(errorLabel := t)
  }

  /** The 32 fields are the whole of the parameters. */
  lemma FieldsDetermine(p: ProgramParams, q: ProgramParams)
    requires forall k :: 1 <= k <= OptionsCount ==> Field(p, k) == Field(q, k)
    ensures p == q
  {
    assert Field(p, 1) == Field(q, 1) && Field(p, 2) == Field(q, 2) && Field(p, 3) == Field(q, 3);
    assert Field(p, 4) == Field(q, 4) && Field(p, 5) == Field(q, 5) && Field(p, 6) == Field(q, 6);
    assert Field(p, 7) == Field(q, 7) && Field(p, 8) == Field(q, 8) && Field(p, 9) == Field(q, 9);
    assert Field(p, 10) == Field(q, 10) && Field(p, 11) == Field(q, 11) && Field(p, 12) == Field(q, 12);
    assert Field(p, 13) == Field(q, 13) && Field(p, 14) == Field(q, 14) && Field(p, 15) == Field(q, 15);
    assert Field(p, 16) == Field(q, 16) && Field(p, 17) == Field(q, 17) && Field(p, 18) == Field(q, 18);
    assert Field(p, 19) == Field(q, 19) && Field(p, 20) == Field(q, 20) && Field(p, 21) == Field(q, 21);
    assert Field(p, 22) == Field(q, 22) && Field(p, 23) == Field(q, 23) && Field(p, 24) == Field(q, 24);
    assert Field(p, 25) == Field(q, 25) && Field(p, 26) == Field(q, 26) && Field(p, 27) == Field(q, 27);
    assert Field(p, 28) == Field(q, 28) && Field(p, 29) == Field(q, 29) && Field(p, 30) == Field(q, 30);
    assert Field(p, 31) == Field(q, 31) && Field(p, 32) == Field(q, 32);
  }

  /** The characters of a quoted value from position i: up to the first unescaped
      quote or the end; `\'` stands for a quote, any other backslash is kept. */
  function UnquoteFrom(s: string, i: nat): string
    requires i <= |s|
    decreases |s| - i
  {
    if i == |s| || s[i] == '\'' then []
    else if s[i] == '\\' && i + 1 < |s| && s[i + 1] == '\'' then ['\''] + UnquoteFrom(s, i + 2)
    else [s[i]] + UnquoteFrom(s, i + 1)
  }

  /** readStringValue as a function: a value that does not open with a quote throws. */
  function Unquote(s: string, p: nat): Result<string>
    requires p <= |s|
  {
    if CharAt(s, p) != '\'' then Failure else Ok(UnquoteFrom(s, p + 1))
  }

  /** How a label has to be written so that readStringValue returns it. */
  function Escape(v: string): (e: string)
    ensures |e| >= |v|
  {
    if v == [] then []
    else if v[0] == '\'' then ['\\', '\''] + Escape(v[1..])
    else [v[0]] + Escape(v[1..])
  }

  /** Reading back an escaped value stops exactly at its closing quote, whatever
      follows, as long as the value does not end in a backslash (that backslash
      would escape the closing quote). */
  lemma {:induction false} UnquoteEscaped(pre: string, v: string, rest: string)
    requires v == [] || v[|v| - 1] != '\\'
    ensures UnquoteFrom(pre + Escape(v) + "'" + rest, |pre|) == v
    decreases |v|
  {
    var s := pre + Escape(v) + "'" + rest;
    if v == [] {
      assert s[|pre|] == '\'';
    } else {
      var tail := v[1..];
      assert tail == [] || tail[|tail| - 1] == v[|v| - 1];
      if v[0] == '\'' {
        var pre' := pre + ['\\', '\''];
        assert s == pre' + Escape(tail) + "'" + rest;
        assert s[|pre|] == '\\' && s[|pre| + 1] == '\'';
        UnquoteEscaped(pre', tail, rest);
      } else {
        var pre' := pre + [v[0]];
        assert s == pre' + Escape(tail) + "'" + rest;
        assert s[|pre|] == v[0];
        if v[0] == '\\' {
          // the next character is not a quote: the value goes on with a non-quote
          assert tail != [];
          EscapeHead(tail);
          assert s[|pre| + 1] == Escape(tail)[0];
        }
        UnquoteEscaped(pre', tail, rest);
      }
    }
  }

  lemma EscapeHead(v: string)
    requires v != []
    ensures Escape(v)[0] != '\'' && (v[0] != '\'' ==> Escape(v)[0] == v[0])
  {
  }

  /** readStringValue: reads a quoted value starting at p. */
  method ReadStringValue(s: string, p: nat) returns (r: Result<string>)
    requires CString(s) && p <= |s|
    ensures r == Unquote(s, p)
  {
    if CharAt(s, p) != '\'' {
      return Failure;
    }
    var i := p + 1;
    var result := [];
    while CharAt(s, i) != '\'' && CharAt(s, i) != '\0'
      invariant p + 1 <= i <= |s|
      invariant result + UnquoteFrom(s, i) == UnquoteFrom(s, p + 1)
      decreases |s| - i
    {
      if CharAt(s, i) == '\\' && CharAt(s, i + 1) == '\'' {
        assert UnquoteFrom(s, i) == ['\''] + UnquoteFrom(s, i + 2);
        i := i + 1;
      } else {
        assert UnquoteFrom(s, i) == [s[i]] + UnquoteFrom(s, i + 1);
      }
      result := result + [s[i]];
      i := i + 1;
    }
    assert UnquoteFrom(s, i) == [];
    assert result + [] == result;
    return Ok(result);
  }

  /** What one handled option makes of the parameters: the value text is
      `s[pos..]`; unknown ids change nothing. */
  function HandleSpec(conv: Conversions, p: ProgramParams, id: int, s: string, pos: nat): Result<ProgramParams>
    requires pos <= |s|
  {
    match KindOf(id)
    case IntOption => Ok(Assign(p, id, IntValue(conv.atoi(s[pos..]))))
    case RealOption => Ok(Assign(p, id, RealValue(conv.atof(s[pos..]))))
    case FlagOption => Ok(Assign(p, id, FlagValue(true)))
    case TextOption =>
      (match Unquote(s, pos)
       case Failure => Failure
       case Ok(t) => Ok(Assign(p, id, TextValue(t))))
    case UnknownOption => Ok(p)
  }

  /** handleOpt assigns exactly the option's own field and nothing else; flags only
      become true; only a label whose value is not quoted fails. */
  lemma HandleOneField(conv: Conversions, p: ProgramParams, id: int, s: string, pos: nat)
    requires pos <= |s|
    ensures HandleSpec(conv, p, id, s, pos).Failure? <==> KindOf(id) == TextOption && CharAt(s, pos) != '\''
    ensures KindOf(id) == UnknownOption ==> HandleSpec(conv, p, id, s, pos) == Ok(p)
    ensures HandleSpec(conv, p, id, s, pos).Ok? && 1 <= id <= OptionsCount ==>
      var q := HandleSpec(conv, p, id, s, pos).value;
      Erase(q, id) == Erase(p, id)
      && (KindOf(id) == IntOption ==> Field(q, id) == IntValue(conv.atoi(s[pos..])))
      && (KindOf(id) == RealOption ==> Field(q, id) == RealValue(conv.atof(s[pos..])))
      && (KindOf(id) == FlagOption ==> Field(q, id) == FlagValue(true))
      && (KindOf(id) == TextOption ==> Field(q, id) == TextValue(UnquoteFrom(s, pos + 1)))
  {
    if KindOf(id) != UnknownOption {
      assert 1 <= id <= OptionsCount;
    }
  }

  /** The names of the registered long options (LONG_OPTS), in table order: the
      entry with index k carries option id k + 1. */
  const OptionNames: seq<string> := [
    "window-width", "window-height", "w-param-target", "chi-param-initial",
    "chi-param-target", "relaxation-param-initial", "relaxation-param-min", "accuracy",
    "splits-num", "iterations-max-num", "w-results-num", "chi-results-num",
    "field-surf-splits-num", "field-int-splits-num", "field-ext-splits-num", "field-iter-max-num",
    "field-accuracy", "field-relax-param-initial", "field-relax-param-min",
    "field-model-relax-param-initial", "field-model-relax-param-min", "field-model-chi",
    "field-inf-pos-multiplier", "equal-axis", "dimensionless", "pedantic-right-sweep",
    "main-problem", "field-model-problem", "label-x", "label-y", "label-potential", "label-error"]

  /** LONG_OPTS: the named entries followed by the null terminator. */
  const LongOpts: seq<LongOpt> := [
    LongOpt(Some(OptionNames[0]), 1), LongOpt(Some(OptionNames[1]), 2), LongOpt(Some(OptionNames[2]), 3),
    LongOpt(Some(OptionNames[3]), 4), LongOpt(Some(OptionNames[4]), 5), LongOpt(Some(OptionNames[5]), 6),
    LongOpt(Some(OptionNames[6]), 7), LongOpt(Some(OptionNames[7]), 8), LongOpt(Some(OptionNames[8]), 9),
    LongOpt(Some(OptionNames[9]), 10), LongOpt(Some(OptionNames[10]), 11), LongOpt(Some(OptionNames[11]), 12),
    LongOpt(Some(OptionNames[12]), 13), LongOpt(Some(OptionNames[13]), 14), LongOpt(Some(OptionNames[14]), 15),
    LongOpt(Some(OptionNames[15]), 16), LongOpt(Some(OptionNames[16]), 17), LongOpt(Some(OptionNames[17]), 18),
    LongOpt(Some(OptionNames[18]), 19), LongOpt(Some(OptionNames[19]), 20), LongOpt(Some(OptionNames[20]), 21),
    LongOpt(Some(OptionNames[21]), 22), LongOpt(Some(OptionNames[22]), 23), LongOpt(Some(OptionNames[23]), 24),
    LongOpt(Some(OptionNames[24]), 25), LongOpt(Some(OptionNames[25]), 26), LongOpt(Some(OptionNames[26]), 27),
    LongOpt(Some(OptionNames[27]), 28), LongOpt(Some(OptionNames[28]), 29), LongOpt(Some(OptionNames[29]), 30),
    LongOpt(Some(OptionNames[30]), 31), LongOpt(Some(OptionNames[31]), 32), LongOpt(None, 0)]

  lemma NamesFirstQuarter() ensures forall k :: 0 <= k < 8 ==> CString(OptionNames[k]) {}
  lemma NamesSecondQuarter() ensures forall k :: 8 <= k < 16 ==> CString(OptionNames[k]) {}
  lemma NamesThirdQuarter() ensures forall k :: 16 <= k < 24 ==> CString(OptionNames[k]) {}
  lemma NamesLastQuarter() ensures forall k :: 24 <= k < 32 ==> CString(OptionNames[k]) {}

  lemma LongOptsTable()
    ensures LongTable(LongOpts)
  {
    NamesFirstQuarter();
    NamesSecondQuarter();
    NamesThirdQuarter();
    NamesLastQuarter();
  }

  /** The option an argument names: parseOpts passes no short table. */
  function Lookup(s: string): (CharRef, int)
  {
    LongOptsTable();
    if CharAt(s, 0) == '-' && CharAt(s, 1) == '-' then LongLookup(s, 2, LongOpts, 0) else (Null, -1)
  }

  /** The fixes parseOpts applies after the last argument. */
  function Fixups(p: ProgramParams): (q: ProgramParams)
    ensures q.wTarget == 0.0 ==> q.resultsNumW == 1
    ensures q.chiTarget - q.chiInitial == 0.0 ==> q.resultsNumChi == 1
    ensures q.(resultsNumW := p.resultsNumW, resultsNumChi := p.resultsNumChi) == p
  {
    var q := if p.wTarget == 0.0 then p.(resultsNumW := 1) else p;
    if q.chiTarget - q.chiInitial == 0.0 then q.(resultsNumChi := 1) else q
  }

  /** The arguments from i on, handled in order; the first label that cannot be
      read aborts the parse. Unknown arguments are skipped. */
  function ParseFrom(conv: Conversions, p: ProgramParams, args: seq<string>, i: nat): Result<ProgramParams>
    requires i <= |args|
    requires forall k :: 0 <= k < |args| ==> CString(args[k])
    decreases |args| - i
  {
    if i == |args| then Ok(p)
    else
      var (ptr, id) := Lookup(args[i]);
      if ptr == Null then ParseFrom(conv, p, args, i + 1)
      else match HandleSpec(conv, p, id, args[i], ptr.pos)
        case Failure => Failure
        case Ok(q) => ParseFrom(conv, q, args, i + 1)
  }


  /** No argument ever turns a flag off. */
  lemma {:induction false} ParseKeepsFlags(conv: Conversions, p: ProgramParams, args: seq<string>, i: nat)
    requires i <= |args|
    requires forall k :: 0 <= k < |args| ==> CString(args[k])
    ensures ParseFrom(conv, p, args, i).Ok? ==> FlagsAtLeast(p, ParseFrom(conv, p, args, i).value)
    decreases |args| - i
  {
    if i < |args| {
      var (ptr, id) := Lookup(args[i]);
      if ptr == Null {
        ParseKeepsFlags(conv, p, args, i + 1);
      } else {
        var h := HandleSpec(conv, p, id, args[i], ptr.pos);
        if h.Ok? {
          if KindOf(id) != UnknownOption {
            var v := if KindOf(id) == IntOption then IntValue(conv.atoi(args[i][ptr.pos..]))
              else if KindOf(id) == RealOption then RealValue(conv.atof(args[i][ptr.pos..]))
              else if KindOf(id) == FlagOption then FlagValue(true)
              else TextValue(Unquote(args[i], ptr.pos).value);
            assert h.value == Assign(p, id, v);
          }
          ParseKeepsFlags(conv, h.value, args, i + 1);
        }
      }
    }
  }

  function Defaults(): ProgramParams
  {
    ProgramParams(
      xLabel := "x", yLabel := "y", potentialLabel := "potential", errorLabel := "error",
      wTarget := 0.0, relaxationParamInitial := 1.0, relaxationParamMin := 0.1,
      fieldRelaxParamInitial := 1.0, fieldRelaxParamMin := 0.1,
      fieldModelRelaxParamInitial := 1.0, fieldModelRelaxParamMin := 0.1,
      accuracy := 0.1, fieldAccuracy := 0.1, chiInitial := 1.0, chiTarget := 1.0,
      fieldModelChi := 1.0, fieldInfinityPosMultiplier := 4.0,
      windowWidth := 1280, windowHeight := 720, splitsNum := 100,
      fieldSurfaceSplitsNum := 10, fieldInternalSplitsNum := 5, fieldExternalSplitsNum := 5,
      iterationsMaxNum := 1000, fieldIterationsMaxNum := 1000, resultsNumW := 1, resultsNumChi := 1,
      isEqualAxis := false, isDimensionless := false, isRightSweepPedantic := false,
      isMainProblemEnabled := false, isFieldModelProblemEnabled := false)
  }

  /** problemParameters: chi starts at chiInitial, the number of results is the
      number of W results, and the grid takes the four field-grid options. */
  function ProblemParameters(p: ProgramParams): (q: ProblemParams)
    ensures q.chi == p.chiInitial && q.resultsNum == p.resultsNumW && q.wTarget == p.wTarget
    ensures q.gridParams == Grids.STGridParams(p.fieldSurfaceSplitsNum, p.fieldInternalSplitsNum,
                                               p.fieldExternalSplitsNum, p.fieldInfinityPosMultiplier)
    ensures q.relaxationParamInitial == p.relaxationParamInitial && q.relaxationParamMin == p.relaxationParamMin
    ensures q.fieldRelaxParamInitial == p.fieldRelaxParamInitial && q.fieldRelaxParamMin == p.fieldRelaxParamMin
  {
    ProblemParams(
      xLabel := p.xLabel, yLabel := p.yLabel, potentialLabel := p.potentialLabel, errorLabel := p.errorLabel,
      accuracy := p.accuracy, fieldAccuracy := p.fieldAccuracy, chi := p.chiInitial, wTarget := p.wTarget,
      relaxationParamInitial := p.relaxationParamInitial, fieldRelaxParamInitial := p.fieldRelaxParamInitial,
      fieldModelRelaxParamInitial := p.fieldModelRelaxParamInitial,
      relaxationParamMin := p.relaxationParamMin, fieldRelaxParamMin := p.fieldRelaxParamMin,
      fieldModelRelaxParamMin := p.fieldModelRelaxParamMin, fieldModelChi := p.fieldModelChi,
      iterationsMaxNum := p.iterationsMaxNum, fieldIterationsMaxNum := p.fieldIterationsMaxNum,
      resultsNum := p.resultsNumW, splitsNum := p.splitsNum,
      gridParams := Grids.STGridParams(p.fieldSurfaceSplitsNum, p.fieldInternalSplitsNum,
                                       p.fieldExternalSplitsNum, p.fieldInfinityPosMultiplier),
      isRightSweepPedantic := p.isRightSweepPedantic, isDimensionless := p.isDimensionless)
  }

  class ProgramOptsHandler {
    var params: ProgramParams

    /** The defaults ProgramOptsHandler() sets: every flag off, relaxation 1.0 down to 0.1, the
        infinity column at four times the surface. */
    constructor ()
      ensures params == Defaults()
      ensures !params.isEqualAxis && !params.isDimensionless && !params.isRightSweepPedantic
      ensures !params.isMainProblemEnabled && !params.isFieldModelProblemEnabled
    {
      params := Defaults();
    }

    constructor FromParams(p: ProgramParams)
      ensures params == p
    {
      params := p;
    }

    /** handleOpt: the value text starts at `pos` in `s`. */
    method HandleOpt(conv: Conversions, id: int, s: string, pos: nat) returns (r: Result<()>)
      requires CString(s) && pos <= |s|
      modifies this
      ensures var h := HandleSpec(conv, old(params), id, s, pos);
        (r.Ok? <==> h.Ok?) && (h.Ok? ==> params == h.value) && (h.Failure? ==> params == old(params))
    {
      match KindOf(id) {
        case IntOption =>
          params := Assign(params, id, IntValue(conv.atoi(s[pos..])));
        case RealOption =>
          params := Assign(params, id, RealValue(conv.atof(s[pos..])));
        case FlagOption =>
          params := Assign(params, id, FlagValue(true));
        case TextOption =>
          var t := ReadStringValue(s, pos);
          if t.Failure? {
            return Failure;
          }
          params := Assign(params, id, TextValue(t.value));
        case UnknownOption =>
      }
      return Ok(());
    }

    /** parseOpts: every argument is looked up in the long table and handled in
        order (unknown ones are reported and skipped); an unreadable label aborts
        the parse. */
    method ParseOpts(conv: Conversions, args: seq<string>) returns (r: Result<()>)
      requires forall k :: 0 <= k < |args| ==> CString(args[k])
      modifies this
      ensures var f := ParseFrom(conv, old(params), args, 0);
        (r.Ok? <==> f.Ok?) && (f.Ok? ==> params == Fixups(f.value))
      ensures r.Ok? ==> (params.wTarget == 0.0 ==> params.resultsNumW == 1)
      ensures r.Ok? ==> (params.chiTarget - params.chiInitial == 0.0 ==> params.resultsNumChi == 1)
    {
      LongOptsTable();
      var i := 0;
      while i < |args|
        invariant 0 <= i <= |args|
        invariant ParseFrom(conv, params, args, i) == ParseFrom(conv, old(params), args, 0)
      {
        var ptr, id := GetOpt(args[i], None, Some(LongOpts));
        assert (ptr, id) == Lookup(args[i]);
        if ptr != Null {
          var h := HandleOpt(conv, id, args[i], ptr.pos);
          if h.Failure? {
            return Failure;
          }
        }
        i := i + 1;
      }
      params := Fixups(params);
      return Ok(());
    }
  }
}

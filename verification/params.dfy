/** The program's tunable parameters (`Params`) and the parser of its
    `params.ini` file.

    The parameters are static fields read all over the program; the model
    gathers them in one `Settings` value that is passed to every operation
    that reads them. Reading the file, `int.TryParse`/`double.TryParse` and
    the `Convert` calls that copy the dictionary into the statics are not
    modelled: the two number parsers are parameters. */
module Params {
  import opened Wrappers

  /** The static fields of `Params`. Counts the model uses as array sizes
      are natural numbers. */
  datatype Settings = Settings(
    windowWidth: int,
    windowHeight: int,
    fullScreen: bool,
    framesPerSecond: int,
    numInputs: nat,
    numHidden: nat,
    neuronsPerHiddenLayer: nat,
    numOutputs: nat,
    activationResponse: real,
    bias: real,
    maxTurnRate: real,
    maxSpeed: real,
    sweeperScale: int,
    numSweepers: nat,
    numMines: nat,
    numTicks: int,
    mineScale: real,
    crossoverRate: real,
    mutationRate: real,
    maxPerturbation: real,
    numElite: nat,
    numCopiesElite: nat,
    renderer: int)

  /** The initial values of the static fields. */
  const Defaults: Settings := Settings(
    400, 400, false, 60,
    4, 1, 6, 2,
    1.0, -1.0,
    0.3, 2.0, 5,
    30, 40, 2000, 2.0,
    0.7, 0.1, 0.3,
    4, 1, 1)

  /** A boxed dictionary value: C# `int`, `double` or `bool`. */
  datatype Value = IntValue(i: int) | DoubleValue(d: real) | BoolValue(b: bool)

  /** `Convert.ToDouble` of a boxed value. */
  function AsReal(v: Value): real {
    match v
    case IntValue(i) => i as real
    case DoubleValue(d) => d
    case BoolValue(b) => if b then 1.0 else 0.0
  }

  /** `fillMapDefaultValies`. Several `d` entries are stored as boxed
      integers because their literals have no decimal point. */
  const DefaultMap: map<string, Value> := map[
    "iFramesPerSecond" := IntValue(60),
    "iNumInputs" := IntValue(4),
    "iNumHidden" := IntValue(1),
    "iNeuronsPerHiddenLayer" := IntValue(6),
    "iNumOutputs" := IntValue(2),
    "dActivationResponse" := IntValue(1),
    "dBias" := IntValue(-1),
    "dMaxTurnRate" := DoubleValue(0.3),
    "dMaxSpeed" := IntValue(2),
    "iSweeperScale" := IntValue(5),
    "iNumMines" := IntValue(40),
    "iNumSweepers" := IntValue(30),
    "iNumTicks" := IntValue(2000),
    "dMineScale" := IntValue(2),
    "dCrossoverRate" := DoubleValue(0.7),
    "dMutationRate" := DoubleValue(0.1),
    "dMaxPerturbation" := DoubleValue(0.3),
    "iNumElite" := IntValue(4),
    "iNumCopiesElite" := IntValue(1),
    "iRenderer" := IntValue(1),
    "iFullScreen" := BoolValue(false)]

  /** The default dictionary agrees with the initial values of the statics:
      loading a file that sets nothing leaves every parameter as it was.
      (Stated in groups of keys.) */
  lemma DefaultMapMatchesFrames()
    ensures DefaultMap["iFramesPerSecond"] == IntValue(Defaults.framesPerSecond)
    ensures DefaultMap["iNumInputs"] == IntValue(Defaults.numInputs)
    ensures DefaultMap["iNumHidden"] == IntValue(Defaults.numHidden)
  {
  }

  lemma DefaultMapMatchesNetwork()
    ensures DefaultMap["iNeuronsPerHiddenLayer"] == IntValue(Defaults.neuronsPerHiddenLayer)
    ensures DefaultMap["iNumOutputs"] == IntValue(Defaults.numOutputs)
    ensures AsReal(DefaultMap["dActivationResponse"]) == Defaults.activationResponse
  {
  }

  lemma DefaultMapMatchesActivation()
    ensures AsReal(DefaultMap["dBias"]) == Defaults.bias
    ensures AsReal(DefaultMap["dMaxTurnRate"]) == Defaults.maxTurnRate
    ensures AsReal(DefaultMap["dMaxSpeed"]) == Defaults.maxSpeed
  {
  }

  lemma DefaultMapMatchesSweeper()
    ensures DefaultMap["iSweeperScale"] == IntValue(Defaults.sweeperScale)
    ensures DefaultMap["iNumMines"] == IntValue(Defaults.numMines)
    ensures DefaultMap["iNumSweepers"] == IntValue(Defaults.numSweepers)
  {
  }

  lemma DefaultMapMatchesController()
    ensures DefaultMap["iNumTicks"] == IntValue(Defaults.numTicks)
    ensures AsReal(DefaultMap["dMineScale"]) == Defaults.mineScale
    ensures AsReal(DefaultMap["dCrossoverRate"]) == Defaults.crossoverRate
  {
  }

  lemma DefaultMapMatchesRates()
    ensures AsReal(DefaultMap["dMutationRate"]) == Defaults.mutationRate
    ensures AsReal(DefaultMap["dMaxPerturbation"]) == Defaults.maxPerturbation
    ensures DefaultMap["iNumElite"] == IntValue(Defaults.numElite)
  {
  }

  lemma DefaultMapMatchesElitism()
    ensures DefaultMap["iNumCopiesElite"] == IntValue(Defaults.numCopiesElite)
    ensures DefaultMap["iRenderer"] == IntValue(Defaults.renderer)
    ensures DefaultMap["iFullScreen"] == BoolValue(Defaults.fullScreen)
  {
  }

  // ----------------------------------------------------------------------
  // Tokenising: Split(new char[] { ' ', '=' }, RemoveEmptyEntries)
  // ----------------------------------------------------------------------

  predicate IsSeparator(c: char) {
    c == ' ' || c == '='
  }

  /** A non-empty run of non-separator characters. */
  predicate IsToken(t: string) {
    |t| > 0 && forall k :: 0 <= k < |t| ==> !IsSeparator(t[k])
  }

  /** The length of the run of non-separators that starts `s`. */
  function TokenLength(s: string): (n: nat)
    ensures n <= |s|
    ensures forall k :: 0 <= k < n ==> !IsSeparator(s[k])
    ensures n < |s| ==> IsSeparator(s[n])
    decreases |s|
  {
    if |s| == 0 || IsSeparator(s[0]) then 0 else 1 + TokenLength(s[1..])
  }

  /** `s.Split(' ', '=')` with empty entries removed. */
  function Split(s: string): (ts: seq<string>)
    ensures forall i :: 0 <= i < |ts| ==> IsToken(ts[i])
    decreases |s|
  {
    if |s| == 0 then []
    else if IsSeparator(s[0]) then Split(s[1..])
    else
      var n := TokenLength(s);
      [s[..n]] + Split(s[n..])
  }

  /** The characters of `s` that are not separators. */
  function Strip(s: string): (r: string)
    decreases |s|
  {
    if |s| == 0 then ""
    else if IsSeparator(s[0]) then Strip(s[1..])
    else [s[0]] + Strip(s[1..])
  }

  function Concat(ts: seq<string>): string {
    if |ts| == 0 then "" else ts[0] + Concat(ts[1..])
  }

  /** Tokens separated by single spaces. */
  function Join(ts: seq<string>): string {
    if |ts| == 0 then "" else ts[0] + " " + Join(ts[1..])
  }

  lemma {:induction false} StripToken(s: string, n: nat)
    requires n <= |s| && forall k :: 0 <= k < n ==> !IsSeparator(s[k])
    ensures Strip(s) == s[..n] + Strip(s[n..])
    decreases n
  {
    if n > 0 {
      var t := s[1..];
      assert !IsSeparator(s[0]);
      assert Strip(s) == [s[0]] + Strip(t);
      assert forall k :: 0 <= k < n - 1 ==> t[k] == s[k + 1];
      StripToken(t, n - 1);
      assert t[..n - 1] == s[1..n];
      assert t[n - 1..] == s[n..];
      assert s[..n] == [s[0]] + s[1..n];
    }
  }

  /** Splitting loses exactly the separators: the tokens, put back
      together, are the line with its separators removed. */
  lemma {:induction false} SplitKeepsCharacters(s: string)
    ensures Concat(Split(s)) == Strip(s)
    decreases |s|
  {
    if |s| == 0 {
    } else if IsSeparator(s[0]) {
      SplitKeepsCharacters(s[1..]);
    } else {
      var n := TokenLength(s);
      SplitKeepsCharacters(s[n..]);
      StripToken(s, n);
      assert Split(s) == [s[..n]] + Split(s[n..]);
      assert ([s[..n]] + Split(s[n..]))[1..] == Split(s[n..]);
    }
  }

  lemma {:induction false} TokenLengthOfToken(t: string, rest: string)
    requires IsToken(t)
    ensures TokenLength(t + " " + rest) == |t|
    decreases |t|
  {
    var s := t + " " + rest;
    if |t| == 1 {
      assert s[1..] == " " + rest;
    } else {
      assert s[1..] == t[1..] + " " + rest;
      TokenLengthOfToken(t[1..], rest);
    }
  }

  /** Splitting a space-joined list of tokens gives the tokens back. */
  lemma {:induction false} SplitJoin(ts: seq<string>)
    requires forall i :: 0 <= i < |ts| ==> IsToken(ts[i])
    ensures Split(Join(ts)) == ts
    decreases |ts|
  {
    if |ts| > 0 {
      var t := ts[0];
      var rest := Join(ts[1..]);
      var s := t + " " + rest;
      assert Join(ts) == s;
      TokenLengthOfToken(t, rest);
      assert s[..|t|] == t;
      assert s[|t|..] == " " + rest;
      assert Split(" " + rest) == Split(rest) by {
        assert (" " + rest)[1..] == rest;
      }
      SplitJoin(ts[1..]);
    }
  }

  // ----------------------------------------------------------------------
  // LoadMapValiesFromFile
  // ----------------------------------------------------------------------

  /** `int.TryParse` and `double.TryParse`, left abstract. */
  datatype NumberParsers = NumberParsers(parseInt: string -> Option<int>, parseDouble: string -> Option<real>)

  /** The value a token is stored as: an integer if it parses as one, else
      a double if it parses as one. */
  function ParseValue(tok: string, ps: NumberParsers): Option<Value> {
    match ps.parseInt(tok)
    case Some(i) => Some(IntValue(i))
    case None =>
      match ps.parseDouble(tok)
      case Some(d) => Some(DoubleValue(d))
      case None => None
  }

  /** The value `line` assigns to `key`, if it assigns one: the line needs
      at least two tokens, the first of them `key`; later tokens are
      ignored. */
  function Assigns(line: string, key: string, ps: NumberParsers): Option<Value> {
    var ts := Split(line);
    if |ts| >= 2 && ts[0] == key then ParseValue(ts[1], ps) else None
  }

  /** One iteration of the read loop. */
  function LoadLine(m: map<string, Value>, line: string, ps: NumberParsers): (r: map<string, Value>)
    ensures forall key :: Assigns(line, key, ps).Some? ==> key in r && r[key] == Assigns(line, key, ps).value
    ensures forall key :: Assigns(line, key, ps).None? ==> (key in r <==> key in m)
    ensures forall key :: key in m && Assigns(line, key, ps).None? ==> r[key] == m[key]
  {
    var ts := Split(line);
    if |ts| < 2 then m
    else
      match ParseValue(ts[1], ps)
      case Some(v) => m[ts[0] := v]
      case None => m
  }

  /** `LoadMapValiesFromFile` over the lines of the file. */
  function LoadLines(m: map<string, Value>, lines: seq<string>, ps: NumberParsers): map<string, Value>
    decreases |lines|
  {
    if |lines| == 0 then m
    else LoadLine(LoadLines(m, lines[..|lines| - 1], ps), lines[|lines| - 1], ps)
  }

  /** A key's value comes from the last line that assigns it. */
  lemma {:induction false} LastAssignmentWins(m: map<string, Value>, lines: seq<string>, ps: NumberParsers,
                                              key: string, i: nat)
    requires i < |lines| && Assigns(lines[i], key, ps).Some?
    requires forall j :: i < j < |lines| ==> Assigns(lines[j], key, ps).None?
    ensures key in LoadLines(m, lines, ps)
    ensures LoadLines(m, lines, ps)[key] == Assigns(lines[i], key, ps).value
    decreases |lines|
  {
    var init := lines[..|lines| - 1];
    if i < |lines| - 1 {
      assert forall j :: i < j < |init| ==> init[j] == lines[j];
      LastAssignmentWins(m, init, ps, key, i);
    }
  }

  /** A key no line assigns keeps its value from the map the file is loaded
      into (the defaults), and no key appears from nowhere. */
  lemma {:induction false} UnassignedKeyKept(m: map<string, Value>, lines: seq<string>, ps: NumberParsers,
                                             key: string)
    requires forall j :: 0 <= j < |lines| ==> Assigns(lines[j], key, ps).None?
    ensures key in LoadLines(m, lines, ps) <==> key in m
    ensures key in m ==> LoadLines(m, lines, ps)[key] == m[key]
    decreases |lines|
  {
    if |lines| > 0 {
      var init := lines[..|lines| - 1];
      assert forall j :: 0 <= j < |init| ==> init[j] == lines[j];
      UnassignedKeyKept(m, init, ps, key);
    }
  }

  /** A line with fewer than two tokens changes nothing. */
  lemma ShortLineIgnored(m: map<string, Value>, line: string, ps: NumberParsers)
    requires |Split(line)| < 2
    ensures LoadLine(m, line, ps) == m
  {
  }

  // ----------------------------------------------------------------------
  // getIntValue / getDoubleValue
  // ----------------------------------------------------------------------

  /** The second token of a line, or `None` where the C# code throws: a
      `null` line or fewer than two tokens. */
  function SecondToken(line: Option<string>): (r: Option<string>)
    ensures r.Some? <==> line.Some? && |Split(line.value)| >= 2
    ensures r.Some? ==> IsToken(r.value)
  {
    if line.None? then None
    else
      var ts := Split(line.value);
      if |ts| < 2 then None else Some(ts[1])
  }

  /** `getIntValue(str, defValue)`: every exception is caught and turned
      into the default. */
  function GetIntValue(line: Option<string>, defValue: int, ps: NumberParsers): (r: int)
    ensures SecondToken(line).None? ==> r == defValue
    ensures SecondToken(line).Some? && ps.parseInt(SecondToken(line).value).None? ==> r == defValue
    ensures SecondToken(line).Some? && ps.parseInt(SecondToken(line).value).Some? ==>
      r == ps.parseInt(SecondToken(line).value).value
  {
    match SecondToken(line)
    case None => defValue
    case Some(tok) =>
      match ps.parseInt(tok)
      case None => defValue
      case Some(v) => v
  }

  /** `getDoubleValue(str, defValue)`. */
  function GetDoubleValue(line: Option<string>, defValue: real, ps: NumberParsers): (r: real)
    ensures SecondToken(line).None? ==> r == defValue
    ensures SecondToken(line).Some? && ps.parseDouble(SecondToken(line).value).None? ==> r == defValue
    ensures SecondToken(line).Some? && ps.parseDouble(SecondToken(line).value).Some? ==>
      r == ps.parseDouble(SecondToken(line).value).value
  {
    match SecondToken(line)
    case None => defValue
    case Some(tok) =>
      match ps.parseDouble(tok)
      case None => defValue
      case Some(v) => v
  }

  /** A line `key value` written with a space yields the parsed value;
      a line holding only a key yields the default. */
  lemma GetIntValueOfLine(key: string, tok: string, defValue: int, ps: NumberParsers)
    requires IsToken(key) && IsToken(tok)
    ensures GetIntValue(Some(Join([key, tok])), defValue, ps) ==
      (if ps.parseInt(tok).Some? then ps.parseInt(tok).value else defValue)
    ensures GetIntValue(Some(Join([key])), defValue, ps) == defValue
    ensures GetIntValue(None, defValue, ps) == defValue
  {
    SplitJoin([key, tok]);
    SplitJoin([key]);
  }

  /** The same for `getDoubleValue`. */
  lemma GetDoubleValueOfLine(key: string, tok: string, defValue: real, ps: NumberParsers)
    requires IsToken(key) && IsToken(tok)
    ensures GetDoubleValue(Some(Join([key, tok])), defValue, ps) ==
      (if ps.parseDouble(tok).Some? then ps.parseDouble(tok).value else defValue)
    ensures GetDoubleValue(Some(Join([key])), defValue, ps) == defValue
  {
    SplitJoin([key, tok]);
    SplitJoin([key]);
  }
}

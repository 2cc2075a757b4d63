/** The command line (cli.py): the `--parameter name=value` options, the
    check that every parameter the config needs is given, and the binding
    source the command line contributes to the bind chain.

    `sys.exit(-1)` after a message on stderr is modelled as a `Failure`
    carrying what the message reports. */
module Cli {
  import opened Wrappers
  import opened Seqs
  import opened Text
  import opened Placeholders
  import opened Binding
  import opened Templates
  import opened BoundConfigs

  datatype CliError =
    | InvalidParameterFormat(given: string)
    | UnnecessaryParameter(name: string, value: string)
    | MissingParameters(names: seq<string>)

  // ---------------------------------------------------------------------
  // `--parameter name=value`

  /** What `re.match(r"^([a-zA-Z0-9-_]+)=(.*)$", s)` accepts, with its two
      groups: a name, `=`, and a value without a line break. `$` also
      matches just before a line break that ends the string, so one final
      `\n` may follow the value. */
  predicate Matches(s: string, name: string, value: string) {
    IsName(name) && '\n' !in value &&
    (s == name + "=" + value || s == name + "=" + value + "\n")
  }

  /** The match itself: the name is the run of name characters at the
      start, which `=` must end; the value is the rest, less a final line
      break. */
  function MatchParameter(s: string): (r: Option<(string, string)>)
    ensures r.Some? ==> Matches(s, r.value.0, r.value.1)
  {
    var k := NameRun(s);
    NameRunSpec(s);
    if k == 0 || k == |s| || s[k] != '=' then None
    else
      var rest := s[k + 1..];
      assert s == s[..k] + "=" + rest;
      if '\n' !in rest then Some((s[..k], rest))
      else if rest[|rest| - 1] == '\n' && '\n' !in rest[..|rest| - 1] then
        assert rest == rest[..|rest| - 1] + "\n";
        Some((s[..k], rest[..|rest| - 1]))
      else None
  }

  /** The match finds every way of reading `s` as `name=value`, and there
      is at most one. */
  lemma MatchParameterComplete(s: string, name: string, value: string)
    requires Matches(s, name, value)
    ensures MatchParameter(s) == Some((name, value))
  {
    var k := |name|;
    NameRunSpec(s);
    assert s[..k] == name && s[k] == '=';
    assert forall i :: 0 <= i < k ==> IsNameChar(s[i]);
    assert NameRun(s) == k;
    var rest := s[k + 1..];
    if s == name + "=" + value {
      assert rest == value;
    } else {
      assert rest == value + "\n";
      assert rest[..|rest| - 1] == value;
    }
  }

  /** Both directions: a text is accepted with groups `name` and `value`
      exactly when it reads as `name=value`. */
  lemma MatchParameterIff(s: string)
    ensures forall name, value :: MatchParameter(s) == Some((name, value)) <==> Matches(s, name, value)
  {
    forall name, value | Matches(s, name, value) ensures MatchParameter(s) == Some((name, value)) {
      MatchParameterComplete(s, name, value);
    }
  }

  /** A text `parse_cli_parameters` accepts: it matches, and its name is a
      parameter the config needs. */
  predicate Accepted(need: seq<string>, s: string) {
    MatchParameter(s).Some? && MatchParameter(s).value.0 in need
  }

  /** Why a text is refused: it does not match, or it names a parameter the
      config does not need. */
  function Refusal(need: seq<string>, s: string): (e: CliError)
    requires !Accepted(need, s)
  {
    match MatchParameter(s)
    case None => InvalidParameterFormat(s)
    case Some((name, value)) => UnnecessaryParameter(name, value)
  }

  /** `parse_cli_parameters`: every `--parameter`, in the order given, as a
      `(name, value)` pair; repeated names are all kept. The first text
      refused ends the program. */
  function ParseCliParameters(need: seq<string>, given: seq<string>): (r: Result<seq<(string, string)>, CliError>)
    ensures r.Success? <==> forall i :: 0 <= i < |given| ==> Accepted(need, given[i])
    ensures r.Success? ==> |r.value| == |given|
    ensures r.Success? ==>
      forall i :: 0 <= i < |given| ==> Matches(given[i], r.value[i].0, r.value[i].1) && r.value[i].0 in need
  {
    if |given| == 0 then Success([])
    else
      assert forall i :: 1 <= i < |given| ==> given[1..][i - 1] == given[i];
      match MatchParameter(given[0])
      case None => Failure(InvalidParameterFormat(given[0]))
      case Some((name, value)) =>
        if name !in need then Failure(UnnecessaryParameter(name, value))
        else
          var rest := ParseCliParameters(need, given[1..]);
          if rest.Failure? then rest
          else Success([(name, value)] + rest.value)
  }

  /** A refusal reports the first text refused. */
  lemma {:induction false} ParseCliParametersRefusal(need: seq<string>, given: seq<string>)
    requires ParseCliParameters(need, given).Failure?
    ensures exists i ::
      && 0 <= i < |given| && !Accepted(need, given[i])
      && (forall j :: 0 <= j < i ==> Accepted(need, given[j]))
      && ParseCliParameters(need, given).error == Refusal(need, given[i])
  {
    if Accepted(need, given[0]) {
      ParseCliParametersRefusal(need, given[1..]);
      var i :| 0 <= i < |given[1..]| && !Accepted(need, given[1..][i]) &&
        (forall j :: 0 <= j < i ==> Accepted(need, given[1..][j])) &&
        ParseCliParameters(need, given[1..]).error == Refusal(need, given[1..][i]);
      assert given[1..][i] == given[i + 1];
      forall j | 0 <= j < i + 1 ensures Accepted(need, given[j]) {
        if j > 0 {
          assert given[1..][j - 1] == given[j];
        }
      }
    } else {
      assert !Accepted(need, given[0]);
    }
  }

  /** The value a parameter gets from the command line: that of its first
      `--parameter`. */
  lemma ParsedValueFirst(need: seq<string>, given: seq<string>, i: nat)
    requires ParseCliParameters(need, given).Success?
    requires i < |given| && MatchParameter(given[i]).Some?
    requires forall j :: 0 <= j < i ==> MatchParameter(given[j]).value.0 != MatchParameter(given[i]).value.0
    ensures var have := ParseCliParameters(need, given).value;
      LinkValue(have, MatchParameter(given[i]).value.0) == Some(MatchParameter(given[i]).value.1)
  {
    var have := ParseCliParameters(need, given).value;
    forall j | 0 <= j < |given| ensures MatchParameter(given[j]) == Some(have[j]) {
      MatchParameterComplete(given[j], have[j].0, have[j].1);
    }
    LinkValueFirst(have, have[i].0, i);
  }

  // ---------------------------------------------------------------------
  // Messages

  /** The message for a refused or missing parameter, as evidently
      intended: it shows the text, or the name and value, at fault. */
  function Message(e: CliError): string {
    match e
    case InvalidParameterFormat(given) => "Invalid --parameter format '" + given + "'\n"
    case UnnecessaryParameter(name, value) => "Given unnecessary --parameter " + name + "=" + value + "\n"
    case MissingParameters(names) => MissingLines(names)
  }

  function MissingLines(names: seq<string>): (r: string)
    ensures |names| == 0 <==> |r| == 0
  {
    if |names| == 0 then ""
    else "Config needs --parameter " + names[0] + "=??? to be specified\n" + MissingLines(names[1..])
  }

  /** The message for a text that does not match, as written: the string
      is not an f-string, so the braces are printed as they are. */
  function InvalidFormatMessageAsWritten(given: string): string {
    "Invalid --parameter format '{parametervalue}'\n"
  }

  /** As written, the message is the same whatever was given: `=x` and `a`
      are both refused, and refused with the same words. */
  lemma InvalidFormatMessageIgnoresInput()
    ensures MatchParameter("=x").None? && MatchParameter("a").None?
    ensures InvalidFormatMessageAsWritten("=x") == InvalidFormatMessageAsWritten("a")
    ensures Message(InvalidParameterFormat("=x")) != Message(InvalidParameterFormat("a"))
  {
    assert Message(InvalidParameterFormat("=x"))[28] == '=';
    assert Message(InvalidParameterFormat("a"))[28] == 'a';
  }

  /** The intended message shows the text refused: it can be read back. */
  lemma InvalidFormatMessageShowsInput(given: string)
    ensures var m := Message(InvalidParameterFormat(given));
      |m| == |given| + 30 && m[28..28 + |given|] == given
  {
  }

  // ---------------------------------------------------------------------
  // `check_have_all_parameters`

  /** Python's `==` between a parameter name and a `(name, value)` pair: a
      `str` never equals a `tuple`. */
  function PyEqualsPair(name: string, pair: (string, string)): bool {
    false
  }

  /** The needed parameters `check_have_all_parameters` reports, as
      written: `parameter not in have_parameters` looks for the name among
      the `(name, value)` pairs. */
  function MissingAsWritten(have: seq<(string, string)>, need: seq<string>): seq<string> {
    if |need| == 0 then []
    else
      (if exists i :: 0 <= i < |have| && PyEqualsPair(need[0], have[i]) then [] else [need[0]]) +
      MissingAsWritten(have, need[1..])
  }

  function CheckHaveAllAsWritten(have: seq<(string, string)>, need: seq<string>): Result<(), CliError> {
    var missing := MissingAsWritten(have, need);
    if |missing| == 0 then Success(()) else Failure(MissingParameters(missing))
  }

  /** As written every needed parameter is reported missing, given or
      not. */
  lemma {:induction false} MissingAsWrittenAll(have: seq<(string, string)>, need: seq<string>)
    ensures MissingAsWritten(have, need) == need
  {
    if |need| > 0 {
      MissingAsWrittenAll(have, need[1..]);
    }
  }

  /** So the check fails even when the one needed parameter is given. */
  lemma CheckHaveAllAsWrittenRefusesGiven()
    ensures CheckHaveAllAsWritten([("arch", "amd64")], ["arch"]) == Failure(MissingParameters(["arch"]))
    ensures CheckHaveAll([("arch", "amd64")], ["arch"]) == Success(())
  {
    MissingAsWrittenAll([("arch", "amd64")], ["arch"]);
    var m := Missing([("arch", "amd64")], ["arch"]);
    assert [("arch", "amd64")][0].0 == "arch";
    assert "arch" in GivenNames([("arch", "amd64")]);
    assert "arch" !in m;
  }

  /** The names given on the command line. */
  function GivenNames(have: seq<(string, string)>): (r: set<string>)
    ensures forall n :: n in r <==> exists i :: 0 <= i < |have| && have[i].0 == n
  {
    set i | 0 <= i < |have| :: have[i].0
  }

  /** The needed parameters not given, in the order needed, as evidently
      intended: names are compared with names. */
  function Missing(have: seq<(string, string)>, need: seq<string>): (r: seq<string>)
    ensures forall n :: n in r <==> n in need && n !in GivenNames(have)
    ensures |r| <= |need| && (Distinct(need) ==> Distinct(r))
  {
    var r := Keep(need, Elems(need) - GivenNames(have));
    assert forall n :: n in r <==> n in Elems(r);
    r
  }

  /** `check_have_all_parameters`, comparing names. */
  function CheckHaveAll(have: seq<(string, string)>, need: seq<string>): (r: Result<(), CliError>)
    ensures r.Success? <==> forall n :: n in need ==> exists i :: 0 <= i < |have| && have[i].0 == n
    ensures r.Failure? ==> r.error == MissingParameters(Missing(have, need))
  {
    var missing := Missing(have, need);
    if |missing| == 0 then Success(())
    else
      assert missing[0] in missing;
      Failure(MissingParameters(missing))
  }

  /** What the command line gives passes the check exactly when it names
      every needed parameter. */
  lemma ParsedPassCheck(need: seq<string>, given: seq<string>)
    requires ParseCliParameters(need, given).Success?
    ensures CheckHaveAll(ParseCliParameters(need, given).value, need).Success? <==>
      forall n :: n in need ==> exists i :: 0 <= i < |given| && MatchParameter(given[i]).value.0 == n
  {
    var have := ParseCliParameters(need, given).value;
    forall i | 0 <= i < |given| ensures MatchParameter(given[i]) == Some(have[i]) {
      MatchParameterComplete(given[i], have[i].0, have[i].1);
    }
  }

  // ---------------------------------------------------------------------
  // The command line's binding source

  const CommandLine: string := "__command_line__"

  /** The source the command line adds in front of the bind chain: the
      parameters given, and with `--native-arch-only` an empty list of
      architectures, otherwise no opinion on them. */
  function CliBinding(have: seq<(string, string)>, nativeOnly: bool): (b: BindSource)
    ensures b.sourceName == CommandLine && b.arguments == have
    ensures b.architectures.Some? <==> nativeOnly
    ensures nativeOnly ==> b.architectures.value == []
  {
    BindSource(CommandLine, if nativeOnly then Some([]) else None, have)
  }

  /** With `--native-arch-only` every image is bound to no architecture,
      whatever the group asks for: it is built for the native one. */
  lemma NativeArchOnly(ts: seq<Template>, have: seq<(string, string)>, chain: Chain)
    requires BindChainOf(ts, CliBinding(have, true)) == Success(chain)
    ensures ChainArches(chain + [ImageDefaults]) == []
  {
    ChainArchPrecedence(chain, CliBinding(have, true));
  }

  /** Without it, the architectures are the group's, or none without a
      group. */
  lemma GroupArches(ts: seq<Template>, have: seq<(string, string)>, chain: Chain)
    requires BindChainOf(ts, CliBinding(have, false)) == Success(chain)
    ensures |chain| == 2 ==> ChainArches(chain + [ImageDefaults]) == chain[1].architectures.value
    ensures |chain| == 1 ==> ChainArches(chain + [ImageDefaults]) == []
  {
    ChainArchPrecedence(chain, CliBinding(have, false));
  }

  /** A parameter given on the command line is bound to its first value
      there, ahead of the group and the image defaults. */
  lemma CommandLineWins(ts: seq<Template>, have: seq<(string, string)>, nativeOnly: bool, chain: Chain, i: nat)
    requires BindChainOf(ts, CliBinding(have, nativeOnly)) == Success(chain)
    requires i < |have| && forall j :: 0 <= j < i ==> have[j].0 != have[i].0
    ensures Lookup(chain + [ImageDefaults], have[i].0) == Some(BoundValue(CommandLine, have[i].1))
  {
    var cli := CliBinding(have, nativeOnly);
    LinkValueFirst(have, have[i].0, i);
    ChainPrecedence(chain, cli, have[i].0);
  }
}

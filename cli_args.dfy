/**
 * The terminal front end's argument scanner (`parseArgs`): a default of
 * ten rounds, `--max-rounds <n>` with a positive integer, `--help`/`-h`,
 * and an error for any other `--` option. `process.exit(code)` is the
 * `Exit` outcome.
 */
module CliArgs {
  import opened ResearchTypes

  datatype ParseOutcome = Options(maxRounds: int) | Exit(code: int)

  const DefaultMaxRounds := 10

  predicate IsDigit(c: char)
  {
    '0' <= c <= '9'
  }

  /** The number of leading decimal digits of `s`. */
  function DigitPrefixLength(s: string): (n: nat)
    ensures n <= |s|
    ensures forall i :: 0 <= i < n ==> IsDigit(s[i])
    ensures n < |s| ==> !IsDigit(s[n])
  {
    if s == [] || !IsDigit(s[0]) then 0 else 1 + DigitPrefixLength(s[1..])
  }

  /** The value of a string of decimal digits. */
  function DigitsValue(d: string): nat
    requires forall i :: 0 <= i < |d| ==> IsDigit(d[i])
  {
    if d == [] then 0
    else
      var last := d[|d| - 1];
      assert IsDigit(last);
      DigitsValue(d[..|d| - 1]) * 10 + (last as int - '0' as int)
  }

  /**
   * `Number.parseInt(s, 10)` on an optional sign followed by decimal
   * digits: the value of the longest digit prefix, whatever follows it;
   * `None` (NaN) when no digit follows the sign.
   */
  function ParseInt(s: string): (r: Option<int>)
    // a number exactly when a digit comes first, or right after one sign
    ensures r.Some? <==> (|s| > 0 && IsDigit(s[0]))
                         || (|s| > 1 && (s[0] == '-' || s[0] == '+') && IsDigit(s[1]))
    // only a leading minus gives a value below zero
    ensures r.Some? && |s| > 0 && s[0] == '-' ==> r.value <= 0
    ensures r.Some? && (|s| == 0 || s[0] != '-') ==> r.value >= 0
  {
    var negative := |s| > 0 && s[0] == '-';
    var rest := if |s| > 0 && (s[0] == '-' || s[0] == '+') then s[1..] else s;
    var n := DigitPrefixLength(rest);
    if n == 0 then None
    else
      var magnitude: int := DigitsValue(rest[..n]);
      Some(if negative then -magnitude else magnitude)
  }

  /** Digits followed by anything that does not start with a digit parse to the digits' value. */
  lemma ParseIntDigitsThen(d: string, rest: string)
    requires |d| > 0 && forall i :: 0 <= i < |d| ==> IsDigit(d[i])
    requires rest == [] || !IsDigit(rest[0])
    ensures ParseInt(d + rest) == Some(DigitsValue(d))
  {
    DigitPrefixAppend(d, rest);
    assert (d + rest)[..|d|] == d;
  }

  lemma {:induction false} DigitPrefixAppend(d: string, rest: string)
    requires forall i :: 0 <= i < |d| ==> IsDigit(d[i])
    requires rest == [] || !IsDigit(rest[0])
    ensures DigitPrefixLength(d + rest) == |d|
  {
    if d != [] {
      assert (d + rest)[1..] == d[1..] + rest;
      DigitPrefixAppend(d[1..], rest);
    }
  }

  predicate IsLongOption(arg: string)
  {
    |arg| >= 2 && arg[..2] == "--"
  }

  /**
   * The scan from position `i` with `maxRounds` so far: the reference for
   * the loop of `parseArgs`.
   */
  function Scan(args: seq<string>, i: nat, maxRounds: int): ParseOutcome
    requires i <= |args|
    decreases |args| - i
  {
    if i == |args| then Options(maxRounds)
    else if args[i] == "--max-rounds" && i + 1 < |args| then
      var nextArg := args[i + 1];
      if nextArg == "" then Scan(args, i + 2, maxRounds)
      else
        match ParseInt(nextArg)
        case Some(value) => if value > 0 then Scan(args, i + 2, value) else Exit(1)
        case None => Exit(1)
    else if args[i] == "--help" || args[i] == "-h" then Exit(0)
    else if IsLongOption(args[i]) then Exit(1)
    else Scan(args, i + 1, maxRounds)
  }

  /** `process.argv.slice(2)` */
  function UserArgs(argv: seq<string>): seq<string>
  {
    if |argv| >= 2 then argv[2..] else []
  }

  /** `parseArgs` */
  method ParseArgs(argv: seq<string>) returns (r: ParseOutcome)
    ensures r == Scan(UserArgs(argv), 0, DefaultMaxRounds)
  {
    var args := UserArgs(argv);
    var maxRounds := DefaultMaxRounds;
    var i := 0;
    while i < |args|
      invariant 0 <= i <= |args|
      invariant Scan(args, i, maxRounds) == Scan(args, 0, DefaultMaxRounds)
      decreases |args| - i
    {
      var arg := args[i];
      if arg == "--max-rounds" && i + 1 < |args| {
        var nextArg := args[i + 1];
        if nextArg != "" {
          var value := ParseInt(nextArg);
          if value.Some? && value.value > 0 {
            maxRounds := value.value;
          } else {
            return Exit(1);
          }
        }
        i := i + 1;
      } else if arg == "--help" || arg == "-h" {
        return Exit(0);
      } else if IsLongOption(arg) {
        return Exit(1);
      }
      i := i + 1;
    }
    return Options(maxRounds);
  }

  /** An argument that the scan passes over without effect. */
  predicate Plain(arg: string)
  {
    arg != "--max-rounds" && arg != "--help" && arg != "-h" && !IsLongOption(arg)
  }

  /** Plain arguments are ignored. */
  lemma {:induction false} ScanSkipsPlain(args: seq<string>, i: nat, k: nat, maxRounds: int)
    requires i <= k <= |args|
    requires forall j :: i <= j < k ==> Plain(args[j])
    ensures Scan(args, i, maxRounds) == Scan(args, k, maxRounds)
    decreases k - i
  {
    if i < k {
      ScanSkipsPlain(args, i + 1, k, maxRounds);
    }
  }

  /** With no recognised flag the result is the default of ten rounds. */
  lemma NoFlagsDefault(argv: seq<string>)
    requires forall j :: 0 <= j < |UserArgs(argv)| ==> Plain(UserArgs(argv)[j])
    ensures Scan(UserArgs(argv), 0, DefaultMaxRounds) == Options(10)
  {
    ScanSkipsPlain(UserArgs(argv), 0, |UserArgs(argv)|, DefaultMaxRounds);
  }

  /**
   * The scan ends in one of three ways: options with a positive round
   * count, a help exit with code 0, or an error exit with code 1; a round
   * count other than the starting one was read from the value of some
   * `--max-rounds`.
   */
  lemma {:induction false} ScanOutcomes(args: seq<string>, i: nat, maxRounds: int)
    requires i <= |args| && maxRounds > 0
    ensures Scan(args, i, maxRounds).Options? ==> Scan(args, i, maxRounds).maxRounds > 0
    ensures Scan(args, i, maxRounds).Exit? ==> Scan(args, i, maxRounds).code in {0, 1}
    ensures Scan(args, i, maxRounds) == Options(maxRounds)
      || Scan(args, i, maxRounds).Exit?
      || exists j :: i <= j < |args| - 1 && args[j] == "--max-rounds"
           && ParseInt(args[j + 1]) == Some(Scan(args, i, maxRounds).maxRounds)
    decreases |args| - i
  {
    if i < |args| {
      if args[i] == "--max-rounds" && i + 1 < |args| {
        var nextArg := args[i + 1];
        if nextArg == "" {
          ScanOutcomes(args, i + 2, maxRounds);
        } else if ParseInt(nextArg).Some? && ParseInt(nextArg).value > 0 {
          ScanOutcomes(args, i + 2, ParseInt(nextArg).value);
        }
      } else if !(args[i] == "--help" || args[i] == "-h") && !IsLongOption(args[i]) {
        ScanOutcomes(args, i + 1, maxRounds);
      }
    }
  }

  /** Position `j` is a `--max-rounds` followed by a non-empty value. */
  predicate SetsValue(args: seq<string>, j: int)
  {
    0 <= j < |args| - 1 && args[j] == "--max-rounds" && args[j + 1] != ""
  }

  /** `parseInt` of an option name is NaN. */
  lemma OptionNameNotANumber()
    ensures ParseInt("--max-rounds") == None
  {
    assert "--max-rounds"[1..][0] == '-';
  }

  /** With no `--max-rounds` carrying a non-empty value, options keep the starting count. */
  lemma {:induction false} ScanNoValueKeeps(args: seq<string>, i: nat, maxRounds: int)
    requires i <= |args| && Scan(args, i, maxRounds).Options?
    requires forall j :: i <= j < |args| ==> !SetsValue(args, j)
    ensures Scan(args, i, maxRounds) == Options(maxRounds)
    decreases |args| - i
  {
    if i < |args| {
      assert !SetsValue(args, i);
      if args[i] == "--max-rounds" && i + 1 < |args| {
        ScanNoValueKeeps(args, i + 2, maxRounds);
      } else {
        ScanNoValueKeeps(args, i + 1, maxRounds);
      }
    }
  }

  /**
   * The last value wins: when the scan ends with options, the round count is
   * the parsed value after the last `--max-rounds` with a non-empty value.
   */
  lemma {:induction false} ScanLastValueWins(args: seq<string>, i: nat, maxRounds: int, j: nat)
    requires i <= j && SetsValue(args, j)
    requires forall k :: j < k < |args| ==> !SetsValue(args, k)
    requires Scan(args, i, maxRounds).Options?
    ensures ParseInt(args[j + 1]) == Some(Scan(args, i, maxRounds).maxRounds)
    decreases |args| - i
  {
    OptionNameNotANumber();
    var nextArg := args[i + 1];
    if i == j {
      ScanNoValueKeeps(args, i + 2, ParseInt(nextArg).value);
    } else if args[i] == "--max-rounds" {
      if nextArg == "" {
        ScanLastValueWins(args, i + 2, maxRounds, j);
      } else {
        ScanLastValueWins(args, i + 2, ParseInt(nextArg).value, j);
      }
    } else {
      ScanLastValueWins(args, i + 1, maxRounds, j);
    }
  }

  /**
   * A bad value exits with 1: the first `--max-rounds` whose non-empty value
   * does not parse to a positive integer ends the scan with code 1, unless a
   * help flag comes before it.
   */
  lemma {:induction false} ScanBadValueExits(args: seq<string>, i: nat, maxRounds: int, j: nat)
    requires i <= j && SetsValue(args, j)
    requires !(ParseInt(args[j + 1]).Some? && ParseInt(args[j + 1]).value > 0)
    requires forall k :: i <= k < j ==> args[k] != "--help" && args[k] != "-h"
    ensures Scan(args, i, maxRounds) == Exit(1)
    decreases |args| - i
  {
    if i < j {
      assert args[i] != "--help" && args[i] != "-h";
      if args[i] == "--max-rounds" && i + 1 < |args| {
        var nextArg := args[i + 1];
        if nextArg == "" {
          ScanBadValueExits(args, i + 2, maxRounds, j);
        } else if ParseInt(nextArg).Some? && ParseInt(nextArg).value > 0 {
          OptionNameNotANumber();
          assert i + 1 != j;
          ScanBadValueExits(args, i + 2, ParseInt(nextArg).value, j);
        }
      } else if !IsLongOption(args[i]) {
        ScanBadValueExits(args, i + 1, maxRounds, j);
      }
    }
  }

  /** `Number.parseInt` on the values used below. */
  lemma ParseIntExamples()
    ensures ParseInt("5") == Some(5) && ParseInt("3") == Some(3) && ParseInt("7") == Some(7)
    ensures ParseInt("0") == Some(0)
    ensures ParseInt("3abc") == Some(3)
    ensures ParseInt("abc") == None && ParseInt("--help") == None
  {
    ParseIntDigitsThen("5", "");
    ParseIntDigitsThen("3", "");
    ParseIntDigitsThen("7", "");
    ParseIntDigitsThen("0", "");
    ParseIntDigitsThen("3", "abc");
    assert "3" + "abc" == "3abc";
    assert "5" + "" == "5" && "3" + "" == "3" && "7" + "" == "7" && "0" + "" == "0";
  }

  /** The default and a set value. */
  lemma ParseExamplesValues()
    ensures Scan(UserArgs(["bun", "cli"]), 0, 10) == Options(10)
    ensures Scan(UserArgs(["bun", "cli", "--max-rounds", "5"]), 0, 10) == Options(5)
  {
    ParseIntExamples();
  }

  /** A later value overrides an earlier one. */
  lemma ParseExamplesOverride()
    ensures Scan(UserArgs(["bun", "cli", "--max-rounds", "3", "--max-rounds", "7"]), 0, 10) == Options(7)
  {
    ParseIntExamples();
  }

  /** `parseInt` reads the leading digits only. */
  lemma ParseExamplesLenient()
    ensures Scan(UserArgs(["bun", "cli", "--max-rounds", "3abc"]), 0, 10) == Options(3)
  {
    ParseIntExamples();
  }

  /** An empty value is skipped, and so is an argument that is not an option. */
  lemma ParseExamplesSkipped()
    ensures Scan(UserArgs(["bun", "cli", "--max-rounds", "", "topic"]), 0, 10) == Options(10)
    ensures Scan(UserArgs(["bun", "cli", "-v"]), 0, 10) == Options(10)
  {
    assert "topic"[..2][0] == 't';
  }

  /** Exits on a bad value. */
  lemma ParseExamplesBadValue()
    // the value is consumed even when it looks like an option
    ensures Scan(UserArgs(["bun", "cli", "--max-rounds", "--help"]), 0, 10) == Exit(1)
    ensures Scan(UserArgs(["bun", "cli", "--max-rounds", "0"]), 0, 10) == Exit(1)
    ensures Scan(UserArgs(["bun", "cli", "--max-rounds", "abc"]), 0, 10) == Exit(1)
  {
    ParseIntExamples();
  }

  /** Help, unknown options, and a trailing `--max-rounds`. */
  lemma ParseExamplesExits()
    // a trailing --max-rounds is an unknown option
    ensures Scan(UserArgs(["bun", "cli", "--max-rounds"]), 0, 10) == Exit(1)
    ensures Scan(UserArgs(["bun", "cli", "-h", "--max-rounds", "abc"]), 0, 10) == Exit(0)
    ensures Scan(UserArgs(["bun", "cli", "--verbose"]), 0, 10) == Exit(1)
  {
    assert "--max-rounds"[..2] == "--";
    assert "--verbose"[..2] == "--";
  }
}

/** The checks selpg makes on its command line before reading any input:
    both pages given, `-s` written first and `-e` second, and a page range
    that is non-negative and in order. The first failing check decides the
    error, which is reported with the usage text and exit status 1. */
module Validation {
  import opened Config

  datatype ArgError =
    | NotEnoughArguments   // -s or -e not given
    | StartNotFirst        // the first argument does not begin with -s
    | EndNotSecond         // the argument after the -s value does not begin with -e
    | InvalidRange         // negative page, or start page after end page

  datatype Verdict = Accepted | Rejected(error: ArgError)

  /** Neither page flag still holds the "not given" sentinel. Every
      non-negative pair of pages counts as given; the flag defaults do not. */
  predicate BothPagesGiven(a: SelpgArgs): (given: bool)
    ensures a.startPage >= 0 && a.endPage >= 0 ==> given
    ensures a == FlagDefaults() ==> !given
  {
    a.startPage != Unset && a.endPage != Unset
  }

  /** The test `arg[0] != '-' || arg[1] != c` only reads arg[1] when arg[0]
      is '-': these are the strings it can be applied to without an index
      out of range. */
  predicate FlagTestReadable(arg: string) {
    |arg| >= 1 && (arg[0] == '-' ==> |arg| >= 2)
  }

  /** `arg` begins with '-' followed by `c`, tested character by character. */
  predicate HasFlagPrefix(arg: string, c: char): (prefixed: bool)
    requires FlagTestReadable(arg)
    ensures prefixed <==> ['-', c] <= arg
  {
    !(arg[0] != '-' || arg[1] != c)
  }

  /** Where -e is looked for: when the first argument is exactly "-s" its
      value is the next argument, so -e comes one position later. */
  function EndIndex(osArgs: seq<string>): (k: nat)
    requires |osArgs| >= 2
    ensures k == 2 || k == 3
    ensures "-s" <= osArgs[1] ==> (k == 3 <==> osArgs[1] == "-s")
  {
    if |osArgs[1]| == 2 then 3 else 2
  }

  /** The positional check can run on `osArgs` without indexing out of range. */
  predicate PositionalReadable(osArgs: seq<string>) {
    && |osArgs| >= 2
    && FlagTestReadable(osArgs[1])
    && (HasFlagPrefix(osArgs[1], 's') ==>
          EndIndex(osArgs) < |osArgs| && FlagTestReadable(osArgs[EndIndex(osArgs)]))
  }

  /** The positional check on the raw command line: the first argument must
      begin with "-s", and the argument at EndIndex must begin with "-e". */
  function CheckPositions(osArgs: seq<string>): (v: Verdict)
    requires PositionalReadable(osArgs)
    ensures v == Accepted <==>
      "-s" <= osArgs[1] && EndIndex(osArgs) < |osArgs| && "-e" <= osArgs[EndIndex(osArgs)]
    ensures v == Rejected(StartNotFirst) <==> !("-s" <= osArgs[1])
    ensures v == Accepted || v == Rejected(StartNotFirst) || v == Rejected(EndNotSecond)
  {
    if !HasFlagPrefix(osArgs[1], 's') then Rejected(StartNotFirst)
    else if !HasFlagPrefix(osArgs[EndIndex(osArgs)], 'e') then Rejected(EndNotSecond)
    else Accepted
  }

  /** The numeric check on the page range: it passes exactly for a
      non-negative range in order. */
  predicate RangeInOrder(a: SelpgArgs): (ok: bool)
    ensures ok <==> 0 <= a.startPage <= a.endPage
  {
    !(a.startPage > a.endPage || a.startPage < 0 || a.endPage < 0)
  }

  /** All checks in the order selpg makes them; the first failure wins. */
  function ProcessArgs(a: SelpgArgs, osArgs: seq<string>): (v: Verdict)
    requires BothPagesGiven(a) ==> PositionalReadable(osArgs)
    ensures v == Accepted <==>
      0 <= a.startPage <= a.endPage && CheckPositions(osArgs) == Accepted
    ensures !BothPagesGiven(a) <==> v == Rejected(NotEnoughArguments)
    ensures BothPagesGiven(a) && CheckPositions(osArgs) != Accepted ==> v == CheckPositions(osArgs)
    ensures v == Rejected(InvalidRange) <==>
      BothPagesGiven(a) && CheckPositions(osArgs) == Accepted
      && (a.startPage > a.endPage || a.startPage < 0 || a.endPage < 0)
  {
    if !BothPagesGiven(a) then Rejected(NotEnoughArguments)
    else if CheckPositions(osArgs) != Accepted then CheckPositions(osArgs)
    else if !RangeInOrder(a) then Rejected(InvalidRange)
    else Accepted
  }

  /** The range check accepts exactly the ranges 0 <= start <= end; the
      sentinel test is subsumed, since the sentinel is negative. */
  lemma RangeAcceptsExactly(a: SelpgArgs)
    ensures BothPagesGiven(a) && RangeInOrder(a) <==> 0 <= a.startPage <= a.endPage
  {
  }

  /** With no page flags the command line is rejected for missing pages,
      whatever the raw arguments are. */
  lemma DefaultsRejected(osArgs: seq<string>)
    ensures ProcessArgs(FlagDefaults(), osArgs) == Rejected(NotEnoughArguments)
  {
  }

  /** `-s=N -e=M ...`, with the values joined to the flags by '=', passes
      the positional check. */
  lemma JoinedFlagsAccepted(prog: string, startValue: string, endValue: string, rest: seq<string>)
    ensures var osArgs := [prog, "-s=" + startValue, "-e=" + endValue] + rest;
            PositionalReadable(osArgs) && CheckPositions(osArgs) == Accepted
  {
    var osArgs := [prog, "-s=" + startValue, "-e=" + endValue] + rest;
    assert osArgs[1] == "-s=" + startValue && osArgs[2] == "-e=" + endValue;
    assert EndIndex(osArgs) == 2;
  }

  /** `-s N -e...` with the start value as a separate argument passes the
      positional check. */
  lemma SeparateStartValueAccepted(prog: string, startValue: string, endArg: string, rest: seq<string>)
    requires "-e" <= endArg
    ensures var osArgs := [prog, "-s", startValue, endArg] + rest;
            PositionalReadable(osArgs) && CheckPositions(osArgs) == Accepted
  {
    var osArgs := [prog, "-s", startValue, endArg] + rest;
    assert osArgs[1] == "-s" && osArgs[3] == endArg;
  }

  /** Any other flag written between `-s=N` and the -e argument is
      rejected, even though flag parsing itself would accept it. */
  lemma FlagBetweenRejected(prog: string, startValue: string, other: string, rest: seq<string>)
    requires |other| >= 2 && other[0] == '-' && other[1] != 'e'
    ensures var osArgs := [prog, "-s=" + startValue, other] + rest;
            PositionalReadable(osArgs) && CheckPositions(osArgs) == Rejected(EndNotSecond)
  {
    var osArgs := [prog, "-s=" + startValue, other] + rest;
    assert osArgs[1] == "-s=" + startValue && osArgs[2] == other;
  }

  /** `-s 5 -e 2` is rejected as an invalid range. */
  lemma InvertedRangeRejected()
    ensures ProcessArgs(SelpgArgs(5, 2, "", "", DefaultPageLen, false), ["selpg", "-s", "5", "-e", "2"])
         == Rejected(InvalidRange)
  {
  }
}

/*
 * The argument classification of the command-line front end, src/bw.c: the
 * case-insensitive prefix match, the first-match parsers of the eof mode and
 * the operator, the operand parser, the rules `parse_opt` applies to the
 * positional arguments, and the choice of engine operation in `main`.
 *
 * A C string is modelled by its characters before the terminating NUL.  The
 * `sscanf` conversions are not modelled: what `%hhi` and `%zu` make of an
 * argument is given with it, as a `Scan`.  `argp` calls `parse_opt` once per
 * option and positional argument and once at the end, with the number of
 * positional arguments seen so far; `argp_usage` exits with the status
 * `argp_err_exit_status`, which src/bw.c sets to `ERROR_INCORRECT_USAGE`.
 */
module Cli {
  import opened Streams
  import opened BitwiseCore
  import opened ErrorCodes

  // matches_option

  /** `tolower` in the C locale. */
  function Lower(c: char): char
  {
    if 'A' <= c <= 'Z' then (c as int + 32) as char else c
  }

  /** Every character of `s` through `tolower`. */
  function LowerAll(s: string): (r: string)
    ensures |r| == |s| && forall i {:trigger r[i]} :: 0 <= i < |s| ==> r[i] == Lower(s[i])
  {
    seq(|s|, i requires 0 <= i < |s| => Lower(s[i]))
  }

  /** `arg` is non-empty and, ignoring case, a prefix of `option`. */
  predicate Matches(arg: string, option: string)
  {
    0 < |arg| && LowerAll(arg) <= LowerAll(option)
  }

  /** `matches_option(arg, option)` */
  method MatchesOption(arg: string, option: string) returns (r: bool)
    ensures r == Matches(arg, option)
  {
    for i := 0 to |arg|
      invariant i <= |option| && LowerAll(arg)[..i] == LowerAll(option)[..i]
    {
      if i == |option| {
        LongerNeverMatches(arg, option);
        return false;
      }
      if Lower(arg[i]) != Lower(option[i]) {
        assert LowerAll(arg)[i] != LowerAll(option)[i];
        return false;
      }
      assert LowerAll(arg)[..i + 1] == LowerAll(arg)[..i] + [LowerAll(arg)[i]];
      assert LowerAll(option)[..i + 1] == LowerAll(option)[..i] + [LowerAll(option)[i]];
    }
    assert LowerAll(arg) == LowerAll(arg)[..|arg|];
    return |arg| != 0;
  }

  /** An argument longer than the option never matches it. */
  lemma LongerNeverMatches(arg: string, option: string)
    requires |arg| > |option|
    ensures !Matches(arg, option)
  {
    assert |LowerAll(arg)| > |LowerAll(option)|;
  }

  /** Matching ignores the case of both strings. */
  lemma MatchesIgnoresCase(arg: string, option: string)
    ensures Matches(arg, option) == Matches(LowerAll(arg), option)
    ensures Matches(arg, option) == Matches(arg, LowerAll(option))
  {
    LowerTwice(arg);
    LowerTwice(option);
  }

  lemma LowerTwice(s: string)
    ensures LowerAll(LowerAll(s)) == LowerAll(s)
  {
    assert forall i :: 0 <= i < |s| ==> LowerAll(LowerAll(s))[i] == LowerAll(s)[i];
  }

  // parse_eof_mode

  /** The name `-e` accepts for each eof mode. */
  function EofModeName(m: EofMode): string
  {
    match m
    case Error => "error"
    case Truncate => "truncate"
    case Loop => "loop"
    case Zero => "zero"
    case One => "one"
  }

  /** The position of each eof mode in the order `parse_eof_mode` tries them. */
  function EofModeRank(m: EofMode): nat
  {
    match m
    case Error => 0
    case Truncate => 1
    case Loop => 2
    case Zero => 3
    case One => 4
  }

  /**
   * `parse_eof_mode(arg)`: the first mode, in the order error, truncate,
   * loop, zero, one, whose name `arg` matches; an argument matching none
   * exits with `ERROR_ILLEGAL_ARGUMENT`.
   */
  function ParseEofMode(arg: string): (r: Outcome<EofMode>)
    ensures r.Done? ==> Matches(arg, EofModeName(r.value))
    ensures r.Done? ==> forall m :: EofModeRank(m) < EofModeRank(r.value) ==> !Matches(arg, EofModeName(m))
    ensures r.Abort? <==> forall m :: !Matches(arg, EofModeName(m))
    ensures r.Abort? ==> r.code == IllegalArgument
  {
    if Matches(arg, EofModeName(Error)) then Done(Error)
    else if Matches(arg, EofModeName(Truncate)) then Done(Truncate)
    else if Matches(arg, EofModeName(Loop)) then Done(Loop)
    else if Matches(arg, EofModeName(Zero)) then Done(Zero)
    else if Matches(arg, EofModeName(One)) then Done(One)
    else Abort(IllegalArgument)
  }

  /** Every eof mode is parsed back from its name. */
  lemma EofModeNamesParse(m: EofMode)
    ensures ParseEofMode(EofModeName(m)) == Done(m)
  {
    match m
    case Error =>
    case Truncate => NoMatch("truncate", "error");
    case Loop => NoMatch("loop", "error"); NoMatch("loop", "truncate");
    case Zero => NoMatch("zero", "error"); NoMatch("zero", "truncate"); NoMatch("zero", "loop");
    case One =>
      NoMatch("one", "error"); NoMatch("one", "truncate"); NoMatch("one", "loop"); NoMatch("one", "zero");
  }

  /** Strings whose first characters differ, ignoring case, do not match. */
  lemma NoMatch(arg: string, option: string)
    requires 0 < |arg| && 0 < |option| && Lower(arg[0]) != Lower(option[0])
    ensures !Matches(arg, option)
  {
    assert LowerAll(arg)[0] != LowerAll(option)[0];
  }

  /** The one-letter forms the usage text advertises, in either case, select their modes. */
  lemma EofModeShortForms()
    ensures ParseEofMode("e") == Done(Error) && ParseEofMode("E") == Done(Error)
    ensures ParseEofMode("t") == Done(Truncate) && ParseEofMode("T") == Done(Truncate)
    ensures ParseEofMode("l") == Done(Loop) && ParseEofMode("z") == Done(Zero)
    ensures ParseEofMode("o") == Done(One) && ParseEofMode("") == Abort(IllegalArgument)
  {
    NoMatch("t", "error"); NoMatch("T", "error");
    NoMatch("l", "error"); NoMatch("l", "truncate");
    NoMatch("z", "error"); NoMatch("z", "truncate"); NoMatch("z", "loop");
    NoMatch("o", "error"); NoMatch("o", "truncate"); NoMatch("o", "loop"); NoMatch("o", "zero");
    assert LowerAll("e") == "e" && LowerAll("E") == "e" && LowerAll("T") == "t";
    assert LowerAll("error")[..1] == "e" && LowerAll("truncate")[..1] == "t";
    assert LowerAll("loop")[..1] == "l" && LowerAll("zero")[..1] == "z" && LowerAll("one")[..1] == "o";
  }

  // parse_operator

  /** `operator` */
  datatype Operator = Or | And | Xor | Not | LShift | RShift

  /** The symbol and the word `parse_operator` accepts for each operator. */
  function Symbol(op: Operator): string
  {
    match op
    case Or => "|"
    case And => "&"
    case Xor => "^"
    case Not => "~"
    case LShift => "<<"
    case RShift => ">>"
  }

  function Word(op: Operator): string
  {
    match op
    case Or => "or"
    case And => "and"
    case Xor => "xor"
    case Not => "not"
    case LShift => "lshift"
    case RShift => "rshift"
  }

  /** The position of each operator in the order `parse_operator` tries them. */
  function OperatorRank(op: Operator): nat
  {
    match op
    case Or => 0
    case And => 1
    case Xor => 2
    case Not => 3
    case LShift => 4
    case RShift => 5
  }

  predicate Names(arg: string, op: Operator)
  {
    Matches(arg, Symbol(op)) || Matches(arg, Word(op))
  }

  /**
   * `parse_operator(arg)`: the first operator, in the order or, and, xor,
   * not, lshift, rshift, whose symbol or word `arg` matches; an argument
   * matching none exits with `ERROR_ILLEGAL_ARGUMENT`.
   */
  function ParseOperator(arg: string): (r: Outcome<Operator>)
    ensures r.Done? ==> Names(arg, r.value)
    ensures r.Done? ==> forall op :: OperatorRank(op) < OperatorRank(r.value) ==> !Names(arg, op)
    ensures r.Abort? <==> forall op :: !Names(arg, op)
    ensures r.Abort? ==> r.code == IllegalArgument
  {
    if Names(arg, Or) then Done(Or)
    else if Names(arg, And) then Done(And)
    else if Names(arg, Xor) then Done(Xor)
    else if Names(arg, Not) then Done(Not)
    else if Names(arg, LShift) then Done(LShift)
    else if Names(arg, RShift) then Done(RShift)
    else Abort(IllegalArgument)
  }

  /** The first characters, ignoring case, of every symbol and word. */
  function Initials(op: Operator): (char, char)
  {
    match op
    case Or => ('|', 'o')
    case And => ('&', 'a')
    case Xor => ('^', 'x')
    case Not => ('~', 'n')
    case LShift => ('<', 'l')
    case RShift => ('>', 'r')
  }

  /** An argument starting with a character no other operator's names start with names only that operator. */
  lemma OnlyNames(arg: string, op: Operator)
    requires 0 < |arg| && (Lower(arg[0]) == Initials(op).0 || Lower(arg[0]) == Initials(op).1)
    ensures forall op' :: op' != op ==> !Names(arg, op')
  {
    forall op' | op' != op
      ensures !Names(arg, op')
    {
      NoMatch(arg, Symbol(op'));
      NoMatch(arg, Word(op'));
    }
  }

  /** Every operator is parsed back from its symbol and from its word. */
  lemma OperatorNamesParse(op: Operator)
    ensures ParseOperator(Symbol(op)) == Done(op)
    ensures ParseOperator(Word(op)) == Done(op)
  {
    OnlyNames(Symbol(op), op);
    OnlyNames(Word(op), op);
    assert Matches(Symbol(op), Symbol(op)) && Matches(Word(op), Word(op));
  }

  /** One-character abbreviations: "<" is lshift, ">" is rshift, "o" is or, "n" is not. */
  lemma OperatorShortForms()
    ensures ParseOperator("<") == Done(LShift) && ParseOperator(">") == Done(RShift)
    ensures ParseOperator("o") == Done(Or) && ParseOperator("n") == Done(Not)
    ensures ParseOperator("") == Abort(IllegalArgument)
  {
    OnlyNames("<", LShift);
    OnlyNames(">", RShift);
    OnlyNames("o", Or);
    OnlyNames("n", Not);
    assert LowerAll("<") <= LowerAll("<<") && LowerAll(">") <= LowerAll(">>");
    assert LowerAll("o") <= LowerAll("or") && LowerAll("n") <= LowerAll("not");
  }

  // parse_operand

  /** A `char *` that may be NULL. */
  datatype Name = Unset | Named(chars: string)

  /** `operand`: the byte, the shift amount and the operand file name. */
  datatype OperandValue = OperandValue(byte: byte, shift: nat, file: Name)

  /** A result of `sscanf` with one conversion: whether it returned 1, and the value. */
  datatype Parsed<T> = Unparsed | Parsed(value: T)

  /** What `sscanf(arg, "%hhi", ...)` and `sscanf(arg, "%zu", ...)` make of an argument. */
  datatype Scan = Scan(asByte: Parsed<byte>, asShift: Parsed<nat>)

  /**
   * `parse_operand(operator, &operand, arg)`: OR, AND and XOR take a byte,
   * or else a file name; the shifts take an amount, or exit with
   * `ERROR_ILLEGAL_ARGUMENT`; NOT takes no operand and exits with
   * `ERROR_INCORRECT_USAGE`.
   */
  function ParseOperand(op: Operator, o: OperandValue, arg: string, scan: Scan): (r: Outcome<OperandValue>)
    ensures r.Abort? <==> op == Not || ((op == LShift || op == RShift) && scan.asShift.Unparsed?)
    ensures r.Abort? ==> r.code == if op == Not then IncorrectUsage else IllegalArgument
    ensures r.Done? && (op == Or || op == And || op == Xor) ==>
      if scan.asByte.Parsed? then r.value == o.(byte := scan.asByte.value) else r.value == o.(file := Named(arg))
    ensures r.Done? && (op == LShift || op == RShift) ==> r.value == o.(shift := scan.asShift.value)
  {
    match op
    case Or => ByteOrFile(o, arg, scan)
    case And => ByteOrFile(o, arg, scan)
    case Xor => ByteOrFile(o, arg, scan)
    case LShift => if scan.asShift.Parsed? then Done(o.(shift := scan.asShift.value)) else Abort(IllegalArgument)
    case RShift => if scan.asShift.Parsed? then Done(o.(shift := scan.asShift.value)) else Abort(IllegalArgument)
    case Not => Abort(IncorrectUsage)
  }

  function ByteOrFile(o: OperandValue, arg: string, scan: Scan): Outcome<OperandValue>
  {
    if scan.asByte.Parsed? then Done(o.(byte := scan.asByte.value)) else Done(o.(file := Named(arg)))
  }

  // parse_opt

  /** The keys `parse_opt` distinguishes: `-i`, `-o`, `-e`, a positional argument, the end, and any other. */
  datatype Key = InputKey | OutputKey | EofKey | ArgKey | EndKey | OtherKey

  /** What `parse_opt` returns when it returns: 0, or `ARGP_ERR_UNKNOWN`. */
  datatype Reply = Handled | Unknown

  /** The value of `arguments`. */
  datatype Args = Args(input: Name, output: Name, operator: Operator, operand: OperandValue, eof: EofMode)

  /** `arguments`, which `parse_opt` fills in. */
  class Arguments {
    var input: Name
    var output: Name
    var operator: Operator
    var operand: OperandValue
    var eof: EofMode

    function State(): Args
      reads this
    {
      Args(input, output, operator, operand, eof)
    }

    /** The defaults of `main`: eof mode ERROR, every other field zero. */
    constructor ()
      ensures State() == Args(Unset, Unset, Or, OperandValue(0, 0, Unset), Error)
    {
      input, output, operator := Unset, Unset, Or;
      operand, eof := OperandValue(0, 0, Unset), Error;
    }
  }

  /**
   * `parse_opt(key, arg, state)` on the arguments `a`, with `argNum`
   * positional arguments already seen: the arguments afterwards and the
   * reply, or the exit code.
   */
  function ParseOptSpec(a: Args, key: Key, arg: string, scan: Scan, argNum: nat): (r: (Args, Outcome<Reply>))
    ensures r.1 == Done(Unknown) <==> key == OtherKey
    ensures key == EndKey ==> r.0 == a
    ensures key == ArgKey && argNum >= 2 ==> r == (a, Done(Handled))
    ensures key != EofKey ==> r.0.eof == a.eof
    ensures key == EofKey ==> (r.1.Done? <==> ParseEofMode(arg).Done?)
    ensures key == EofKey && r.1.Done? ==> r.0.eof == ParseEofMode(arg).value
  {
    match key
    case InputKey => (a.(input := Named(arg)), Done(Handled))
    case OutputKey => (a.(output := Named(arg)), Done(Handled))
    case EofKey =>
      var m := ParseEofMode(arg);
      if m.Abort? then (a, Abort(m.code)) else (a.(eof := m.value), Done(Handled))
    case ArgKey =>
      if argNum == 0 then
        var op := ParseOperator(arg);
        if op.Abort? then (a, Abort(op.code)) else (a.(operator := op.value), Done(Handled))
      else if argNum == 1 then
        var o := ParseOperand(a.operator, a.operand, arg, scan);
        if o.Abort? then (a, Abort(o.code)) else (a.(operand := o.value), Done(Handled))
      else (a, Done(Handled))
    case EndKey =>
      if argNum == 0 then (a, Abort(IncorrectUsage))
      else if argNum == 1 && a.operator != Not then (a, Abort(IncorrectUsage))
      else (a, Done(Handled))
    case OtherKey => (a, Done(Unknown))
  }

  /** `parse_opt(key, arg, state)` */
  method ParseOpt(args: Arguments, key: Key, arg: string, scan: Scan, argNum: nat) returns (r: Outcome<Reply>)
    modifies args
    ensures (args.State(), r) == ParseOptSpec(old(args.State()), key, arg, scan, argNum)
  {
    r := Done(Handled);
    match key
    case InputKey =>
      args.input := Named(arg);
    case OutputKey =>
      args.output := Named(arg);
    case EofKey =>
      var m := ParseEofMode(arg);
      if m.Abort? {
        return Abort(m.code);
      }
      args.eof := m.value;
    case ArgKey =>
      if argNum == 0 {
        var op := ParseOperator(arg);
        if op.Abort? {
          return Abort(op.code);
        }
        args.operator := op.value;
      } else if argNum == 1 {
        var o := ParseOperand(args.operator, args.operand, arg, scan);
        if o.Abort? {
          return Abort(o.code);
        }
        args.operand := o.value;
      }
    case EndKey =>
      if argNum == 0 || (argNum == 1 && args.operator != Not) {
        return Abort(IncorrectUsage);
      }
    case OtherKey =>
      r := Done(Unknown);
  }

  // The positional arguments

  /**
   * What `parse_opt` makes of the positional arguments `args[k..]` and the
   * end of the command line, from the arguments `a` on: the arguments
   * afterwards and whether parsing returned or exited.
   */
  function PositionalFrom(a: Args, args: seq<string>, scans: seq<Scan>, k: nat): (Args, Status)
    requires |scans| == |args| && k <= |args|
    decreases |args| - k
  {
    if k == |args| then
      var r := ParseOptSpec(a, EndKey, "", Scan(Unparsed, Unparsed), k);
      (r.0, if r.1.Abort? then Exited(r.1.code) else Returned)
    else
      var r := ParseOptSpec(a, ArgKey, args[k], scans[k], k);
      if r.1.Abort? then (r.0, Exited(r.1.code)) else PositionalFrom(r.0, args, scans, k + 1)
  }

  /** The positional arguments of a command line, with what `sscanf` makes of each. */
  function Positional(a: Args, args: seq<string>, scans: seq<Scan>): (Args, Status)
    requires |scans| == |args|
  {
    PositionalFrom(a, args, scans, 0)
  }

  /** A command line without an operator is a usage error. */
  lemma NoOperatorIsUsageError(a: Args)
    ensures Positional(a, [], []).1 == Exited(IncorrectUsage)
  {
  }

  /**
   * A lone operator is accepted only when it is NOT: an unknown operator
   * exits with `ERROR_ILLEGAL_ARGUMENT` and any other operator with
   * `ERROR_INCORRECT_USAGE`.
   */
  lemma LoneOperator(a: Args, arg: string, scan: Scan)
    ensures Positional(a, [arg], [scan]).1
         == match ParseOperator(arg)
            case Abort(c) => Exited(c)
            case Done(op) => if op == Not then Returned else Exited(IncorrectUsage)
  {
    assert PositionalFrom(a, [arg], [scan], 0) == (
      var r := ParseOptSpec(a, ArgKey, arg, scan, 0);
      if r.1.Abort? then (r.0, Exited(r.1.code)) else PositionalFrom(r.0, [arg], [scan], 1));
  }

  /** NOT given an operand exits with `ERROR_INCORRECT_USAGE`. */
  lemma NotTakesNoOperand(a: Args, args: seq<string>, scans: seq<Scan>)
    requires |args| >= 2 && |scans| == |args| && ParseOperator(args[0]) == Done(Not)
    ensures Positional(a, args, scans).1 == Exited(IncorrectUsage)
  {
    var a1 := a.(operator := Not);
    assert PositionalFrom(a, args, scans, 0) == PositionalFrom(a1, args, scans, 1);
  }

  /**
   * With an operator and an operand, parsing returns exactly when the operand
   * parses, and the operand value is the one parsed; arguments after the
   * second change nothing.
   */
  lemma OperatorAndOperand(a: Args, args: seq<string>, scans: seq<Scan>)
    requires |args| >= 2 && |scans| == |args|
    ensures var r := Positional(a, args, scans);
      match ParseOperator(args[0])
      case Abort(c) => r.1 == Exited(c)
      case Done(op) =>
        match ParseOperand(op, a.operand, args[1], scans[1])
        case Abort(c) => r.1 == Exited(c)
        case Done(o) => r == (a.(operator := op, operand := o), Returned)
  {
    var op := ParseOperator(args[0]);
    if op.Done? {
      var a1 := a.(operator := op.value);
      assert PositionalFrom(a, args, scans, 0) == PositionalFrom(a1, args, scans, 1);
      var o := ParseOperand(op.value, a.operand, args[1], scans[1]);
      if o.Done? {
        var a2 := a1.(operand := o.value);
        assert PositionalFrom(a1, args, scans, 1) == PositionalFrom(a2, args, scans, 2);
        ExtraArgumentsIgnored(a2, args, scans, 2);
      }
    }
  }

  /** From the third positional argument on, nothing changes and parsing returns. */
  lemma {:induction false} ExtraArgumentsIgnored(a: Args, args: seq<string>, scans: seq<Scan>, k: nat)
    requires |scans| == |args| && 2 <= k <= |args|
    ensures PositionalFrom(a, args, scans, k) == (a, Returned)
    decreases |args| - k
  {
    if k < |args| {
      ExtraArgumentsIgnored(a, args, scans, k + 1);
    }
  }

  /** Parsing the positional arguments on the `arguments` object, as `argp` does. */
  method ParsePositional(args: Arguments, positional: seq<string>, scans: seq<Scan>) returns (st: Status)
    requires |scans| == |positional|
    modifies args
    ensures (args.State(), st) == Positional(old(args.State()), positional, scans)
  {
    var k := 0;
    while k < |positional|
      invariant k <= |positional|
      invariant PositionalFrom(args.State(), positional, scans, k) == Positional(old(args.State()), positional, scans)
      decreases |positional| - k
    {
      var r := ParseOpt(args, ArgKey, positional[k], scans[k], k);
      if r.Abort? {
        return Exited(r.code);
      }
      k := k + 1;
    }
    var r := ParseOpt(args, EndKey, "", Scan(Unparsed, Unparsed), k);
    st := if r.Abort? then Exited(r.code) else Returned;
  }

  // The dispatch in main

  /** The engine operation `main` calls. */
  datatype Call =
    | ByteCall(op: Operator, operand: byte)
    | FileCall(op: Operator, eof: EofMode)
    | NotCall
    | ShiftCall(op: Operator, amount: nat)

  /**
   * The `switch` of `main`: OR, AND and XOR call their file form exactly
   * when an operand file was named (with the eof mode), and their byte form
   * otherwise (with the operand byte); the shifts pass the shift amount.
   */
  function Dispatch(a: Args): (c: Call)
    ensures c.FileCall? <==> a.operator in {Or, And, Xor} && a.operand.file.Named?
    ensures c.ByteCall? <==> a.operator in {Or, And, Xor} && a.operand.file.Unset?
    ensures c.NotCall? <==> a.operator == Not
    ensures c.ShiftCall? <==> a.operator in {LShift, RShift}
    ensures (c.FileCall? || c.ByteCall? || c.ShiftCall?) ==> c.op == a.operator
    ensures c.FileCall? ==> c.eof == a.eof
    ensures c.ByteCall? ==> c.operand == a.operand.byte
    ensures c.ShiftCall? ==> c.amount == a.operand.shift
  {
    match a.operator
    case Not => NotCall
    case LShift => ShiftCall(LShift, a.operand.shift)
    case RShift => ShiftCall(RShift, a.operand.shift)
    case _ => if a.operand.file.Named? then FileCall(a.operator, a.eof) else ByteCall(a.operator, a.operand.byte)
  }

  // The whole command line

  /** One call of `parse_opt`: the key, the argument, what `sscanf` makes of it, and `arg_num`. */
  datatype OptCall = OptCall(key: Key, arg: string, scan: Scan, argNum: nat)

  /**
   * A sequence of calls of `parse_opt`, as `argp_parse` makes them for the
   * options of a command line, up to the first that exits.
   */
  function ParseAll(a: Args, calls: seq<OptCall>): (Args, Status)
    decreases |calls|
  {
    if calls == [] then (a, Returned)
    else
      var r := ParseOptSpec(a, calls[0].key, calls[0].arg, calls[0].scan, calls[0].argNum);
      if r.1.Abort? then (r.0, Exited(r.1.code)) else ParseAll(r.0, calls[1..])
  }

  /** Calls of `parse_opt` none of which is for `-e` leave the eof mode as it was. */
  lemma {:induction false} NoEofOptionKeepsEof(a: Args, calls: seq<OptCall>)
    requires forall c :: c in calls ==> c.key != EofKey
    ensures ParseAll(a, calls).0.eof == a.eof
    decreases |calls|
  {
    if calls != [] {
      var r := ParseOptSpec(a, calls[0].key, calls[0].arg, calls[0].scan, calls[0].argNum);
      if !r.1.Abort? {
        NoEofOptionKeepsEof(r.0, calls[1..]);
      }
    }
  }

  /** The last `-e` whose argument parses decides the eof mode, whatever else the command line holds. */
  lemma {:induction false} LastEofOptionDecides(a: Args, calls: seq<OptCall>, k: nat)
    requires k < |calls| && calls[k].key == EofKey && ParseEofMode(calls[k].arg).Done?
    requires forall c :: c in calls[k + 1..] ==> c.key != EofKey
    requires ParseAll(a, calls).1 == Returned
    ensures ParseAll(a, calls).0.eof == ParseEofMode(calls[k].arg).value
    decreases k
  {
    var r := ParseOptSpec(a, calls[0].key, calls[0].arg, calls[0].scan, calls[0].argNum);
    if k == 0 {
      NoEofOptionKeepsEof(r.0, calls[1..]);
    } else {
      assert calls[1..][k - 1 + 1..] == calls[k + 1..];
      LastEofOptionDecides(r.0, calls[1..], k - 1);
    }
  }

  /**
   * Without `-e`, a file operation runs in ERROR mode: from the defaults of
   * `main`, whatever other options and positional arguments come, in any order.
   */
  lemma DefaultEofMode(calls: seq<OptCall>)
    requires forall c :: c in calls ==> c.key != EofKey
    ensures var a := ParseAll(Args(Unset, Unset, Or, OperandValue(0, 0, Unset), Error), calls).0;
      Dispatch(a).FileCall? ==> Dispatch(a).eof == Error
  {
    NoEofOptionKeepsEof(Args(Unset, Unset, Or, OperandValue(0, 0, Unset), Error), calls);
  }

  /** Positional arguments never change the eof mode. */
  lemma {:induction false} PositionalKeepsEof(a: Args, args: seq<string>, scans: seq<Scan>, k: nat)
    requires |scans| == |args| && k <= |args|
    ensures PositionalFrom(a, args, scans, k).0.eof == a.eof
    decreases |args| - k
  {
    if k < |args| {
      var r := ParseOptSpec(a, ArgKey, args[k], scans[k], k);
      if !r.1.Abort? {
        PositionalKeepsEof(r.0, args, scans, k + 1);
      }
    }
  }
}

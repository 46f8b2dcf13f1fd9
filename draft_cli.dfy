/*
 * The argument classification of the draft front end, bw.c at the root of
 * the repository.  Its `matches_operand` and `parse_operator` are the same
 * code as `matches_option` and `parse_operator` of src/bw.c and are the
 * members `Cli.Matches`, `Cli.MatchesOption` and `Cli.ParseOperator`.  What
 * differs: `parse_operand` returns a fresh `operand` by value instead of
 * writing into the arguments, and `parse_opt` has no case for `-e`.
 *
 * The fields of the local `operand` that `parse_operand` does not assign
 * are uninitialised in C; the model gives them the values the program
 * evidently expects, zero and NULL.
 */
module DraftCli {
  import opened BitwiseCore
  import opened ErrorCodes
  import opened Cli

  /** The operand `parse_operand` starts from: zero and no file. */
  const Fresh := OperandValue(0, 0, Unset)

  /**
   * `parse_operand(operator, arg)`: a new operand holding only what `arg`
   * gives; NOT exits with `ERROR_INCORRECT_USAGE` and a shift amount that
   * does not parse with `ERROR_ILLEGAL_ARGUMENT`.
   */
  function DraftParseOperand(op: Operator, arg: string, scan: Scan): (r: Outcome<OperandValue>)
    ensures r.Abort? <==> op == Not || ((op == LShift || op == RShift) && scan.asShift.Unparsed?)
    ensures r.Abort? ==> r.code == if op == Not then IncorrectUsage else IllegalArgument
    ensures r.Done? && (op == Or || op == And || op == Xor) ==>
      r.value == if scan.asByte.Parsed? then Fresh.(byte := scan.asByte.value) else Fresh.(file := Named(arg))
    ensures r.Done? && (op == LShift || op == RShift) ==> r.value == Fresh.(shift := scan.asShift.value)
  {
    match op
    case Or => if scan.asByte.Parsed? then Done(Fresh.(byte := scan.asByte.value)) else Done(Fresh.(file := Named(arg)))
    case And => if scan.asByte.Parsed? then Done(Fresh.(byte := scan.asByte.value)) else Done(Fresh.(file := Named(arg)))
    case Xor => if scan.asByte.Parsed? then Done(Fresh.(byte := scan.asByte.value)) else Done(Fresh.(file := Named(arg)))
    case LShift => if scan.asShift.Parsed? then Done(Fresh.(shift := scan.asShift.value)) else Abort(IllegalArgument)
    case RShift => if scan.asShift.Parsed? then Done(Fresh.(shift := scan.asShift.value)) else Abort(IllegalArgument)
    case Not => Abort(IncorrectUsage)
  }

  /**
   * `parse_opt(key, arg, state)` of the draft: as in src/bw.c, except that
   * `-e` is an unknown key and the operand is replaced whole.
   */
  function DraftParseOptSpec(a: Args, key: Key, arg: string, scan: Scan, argNum: nat): (r: (Args, Outcome<Reply>))
    ensures r.1 == Done(Unknown) <==> key == OtherKey || key == EofKey
    ensures r.0.eof == a.eof
    ensures key == ArgKey && argNum == 1 && r.1.Done? ==>
      DraftParseOperand(a.operator, arg, scan).Done? && r.0.operand == DraftParseOperand(a.operator, arg, scan).value
  {
    match key
    case InputKey => (a.(input := Named(arg)), Done(Handled))
    case OutputKey => (a.(output := Named(arg)), Done(Handled))
    case ArgKey =>
      if argNum == 0 then
        var op := ParseOperator(arg);
        if op.Abort? then (a, Abort(op.code)) else (a.(operator := op.value), Done(Handled))
      else if argNum == 1 then
        var o := DraftParseOperand(a.operator, arg, scan);
        if o.Abort? then (a, Abort(o.code)) else (a.(operand := o.value), Done(Handled))
      else (a, Done(Handled))
    case EndKey =>
      if argNum == 0 then (a, Abort(IncorrectUsage))
      else if argNum == 1 && a.operator != Not then (a, Abort(IncorrectUsage))
      else (a, Done(Handled))
    case _ => (a, Done(Unknown))
  }

  /** `parse_opt(key, arg, state)` of the draft, on the `arguments` object. */
  method DraftParseOpt(args: Arguments, key: Key, arg: string, scan: Scan, argNum: nat) returns (r: Outcome<Reply>)
    modifies args
    ensures (args.State(), r) == DraftParseOptSpec(old(args.State()), key, arg, scan, argNum)
  {
    r := Done(Handled);
    match key
    case InputKey =>
      args.input := Named(arg);
    case OutputKey =>
      args.output := Named(arg);
    case ArgKey =>
      if argNum == 0 {
        var op := ParseOperator(arg);
        if op.Abort? {
          return Abort(op.code);
        }
        args.operator := op.value;
      } else if argNum == 1 {
        var o := DraftParseOperand(args.operator, arg, scan);
        if o.Abort? {
          return Abort(o.code);
        }
        args.operand := o.value;
      }
    case EndKey =>
      if argNum == 0 || (argNum == 1 && args.operator != Not) {
        return Abort(IncorrectUsage);
      }
    case _ =>
      r := Done(Unknown);
  }

  /** A sequence of calls of the draft `parse_opt`, up to the first that exits. */
  function DraftParseAll(a: Args, calls: seq<OptCall>): (Args, Status)
    decreases |calls|
  {
    if calls == [] then (a, Returned)
    else
      var r := DraftParseOptSpec(a, calls[0].key, calls[0].arg, calls[0].scan, calls[0].argNum);
      if r.1.Abort? then (r.0, Exited(r.1.code)) else DraftParseAll(r.0, calls[1..])
  }

  /** Whatever calls of the draft `parse_opt` a command line makes, the draft's eof mode stays ERROR. */
  lemma {:induction false} DraftEofStaysError(a: Args, calls: seq<OptCall>)
    requires a.eof == Error
    ensures DraftParseAll(a, calls).0.eof == Error
    decreases |calls|
  {
    if calls != [] {
      var r := DraftParseOptSpec(a, calls[0].key, calls[0].arg, calls[0].scan, calls[0].argNum);
      if !r.1.Abort? {
        DraftEofStaysError(r.0, calls[1..]);
      }
    }
  }

  /** The positional arguments of a draft command line, as `PositionalFrom` does for src/bw.c. */
  function DraftPositionalFrom(a: Args, args: seq<string>, scans: seq<Scan>, k: nat): (Args, Status)
    requires |scans| == |args| && k <= |args|
    decreases |args| - k
  {
    if k == |args| then
      var r := DraftParseOptSpec(a, EndKey, "", Scan(Unparsed, Unparsed), k);
      (r.0, if r.1.Abort? then Exited(r.1.code) else Returned)
    else
      var r := DraftParseOptSpec(a, ArgKey, args[k], scans[k], k);
      if r.1.Abort? then (r.0, Exited(r.1.code)) else DraftPositionalFrom(r.0, args, scans, k + 1)
  }

  /**
   * From arguments whose operand has not been set, the draft and src/bw.c
   * make the same of the positional arguments: the same arguments and the
   * same exit code.  In particular the draft has the same operand-count
   * rules.
   */
  lemma {:induction false} DraftPositionalAgrees(a: Args, args: seq<string>, scans: seq<Scan>, k: nat)
    requires |scans| == |args| && k <= |args| && (k <= 1 ==> a.operand == Fresh)
    ensures DraftPositionalFrom(a, args, scans, k) == PositionalFrom(a, args, scans, k)
    decreases |args| - k
  {
    if k < |args| {
      var d := DraftParseOptSpec(a, ArgKey, args[k], scans[k], k);
      var c := ParseOptSpec(a, ArgKey, args[k], scans[k], k);
      assert d == c;
      if !d.1.Abort? {
        DraftPositionalAgrees(d.0, args, scans, k + 1);
      }
    }
  }

  /** Without a positional argument, the draft exits with `ERROR_INCORRECT_USAGE`. */
  lemma DraftNoOperatorIsUsageError(a: Args)
    ensures DraftPositionalFrom(a, [], [], 0).1 == Exited(IncorrectUsage)
  {
  }

  /** A lone operator other than NOT exits with `ERROR_INCORRECT_USAGE`. */
  lemma DraftLoneOperator(a: Args, arg: string, scan: Scan)
    requires a.operand == Fresh
    ensures DraftPositionalFrom(a, [arg], [scan], 0).1
         == match ParseOperator(arg)
            case Abort(c) => Exited(c)
            case Done(op) => if op == Not then Returned else Exited(IncorrectUsage)
  {
    DraftPositionalAgrees(a, [arg], [scan], 0);
    LoneOperator(a, arg, scan);
  }

  /**
   * The draft replaces the operand whole: a byte operand clears any file
   * name, where src/bw.c keeps the fields `parse_operand` does not assign.
   */
  lemma DraftOperandReplacesWhole(a: Args, arg: string, scan: Scan)
    requires a.operator in {Or, And, Xor} && scan.asByte.Parsed?
    ensures DraftParseOptSpec(a, ArgKey, arg, scan, 1).0.operand.file == Unset
    ensures ParseOptSpec(a, ArgKey, arg, scan, 1).0.operand.file == a.operand.file
  {
  }
}

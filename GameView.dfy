/**
 * The timed round: the question generator, the clock display, and the round
 * state (time left, the typed answer, the score and the current question) with
 * the keypad, confirm and timer handlers.
 *
 * `Math.random` is replaced by injected draws: each `Draw` holds the offsets
 * `floor(random * (max - min + 1))` that the three possible `randomInt` calls
 * of one `generateQuestion` call add to their lower bounds.
 */
module GameView {
  import opened Wrappers
  import opened Numerals
  import opened JsText

  datatype Operation = Add | Sub | Mult | Div

  /** The table selector: a fixed number, or "mix" for a random operation and table per question. */
  datatype Table = Number(n: nat) | Mix

  datatype Question = Question(text: string, answer: int)

  /** The random offsets of one call of the generator; a field the call does not draw is ignored. */
  datatype Draw = Draw(opPick: int, tablePick: int, operandPick: int)

  /** `randomInt(min, max)` once its random offset `k` is drawn. */
  function RandomInt(min: int, max: int, k: int): (r: int)
    requires 0 <= k <= max - min
    ensures min <= r <= max
  {
    min + k
  }

  /** `formatTime`: whole minutes and the JavaScript remainder of seconds, each padded to two characters. */
  function FormatTime(seconds: int): string
  {
    var mins := seconds / 60;  // Math.floor of the quotient: Euclidean division by a positive divisor
    var secs := JsRemainder(seconds, 60);
    PadStart2(IntToString(mins)) + ":" + PadStart2(IntToString(secs))
  }

  lemma TwoDigits(n: nat)
    requires n < 100
    ensures var p := PadStart2(NatToString(n)); |p| == 2 && AllDigits(p, 10) && Value(p, 10) == n
  {
    var p := PadStart2(NatToString(n));
    if n < 10 {
      assert p == ['0', DigitChar(n)];
      assert p[..1] == ['0'] && p[..1][..0] == [];
      assert Value(p[..1], 10) == 0;
      assert Value(p, 10) == Value(p[..1], 10) * 10 + n;
    } else {
      ValueOfNatToString(n);
      assert NatToString(n / 10) == [DigitChar(n / 10)];
    }
  }

  /** Below 100 minutes the clock reads MM:SS, and minutes and seconds give back the time. */
  lemma FormatTimeReadsBack(seconds: int)
    requires 0 <= seconds < 6000
    ensures var r := FormatTime(seconds);
            |r| == 5 && r[2] == ':' && AllDigits(r[..2], 10) && AllDigits(r[3..], 10) &&
            Value(r[..2], 10) * 60 + Value(r[3..], 10) == seconds && Value(r[3..], 10) < 60
  {
    var mins, secs := seconds / 60, seconds % 60;
    TwoDigits(mins);
    TwoDigits(secs);
    var r := FormatTime(seconds);
    assert r[..2] == PadStart2(NatToString(mins));
    assert r[3..] == PadStart2(NatToString(secs));
  }

  function OperationAt(i: int): Operation
    requires 0 <= i <= 3
  {
    [Add, Sub, Mult, Div][i]
  }

  /** The operation and table a question uses: drawn in mix mode, with division by table 0 turned into multiplication. */
  function Effective(operation: Operation, tableNumber: Table, d: Draw): (Operation, nat)
    requires tableNumber.Mix? ==> 0 <= d.opPick <= 3 && 0 <= d.tablePick <= 8
  {
    var op := if tableNumber.Mix? then OperationAt(d.opPick) else operation;
    var table: nat := if tableNumber.Mix? then RandomInt(1, 9, d.tablePick) else tableNumber.n;
    if table == 0 && op == Div then (Mult, table) else (op, table)
  }

  /** The largest operand offset: subtraction draws from 11 minuends, the others from 10 operands. */
  function OperandSpan(op: Operation): nat {
    if op == Sub then 10 else 9
  }

  /** The draws a call can make, given the operation and table selector. */
  predicate DrawFits(operation: Operation, tableNumber: Table, d: Draw) {
    && (tableNumber.Mix? ==> 0 <= d.opPick <= 3 && 0 <= d.tablePick <= 8)
    && 0 <= d.operandPick <= OperandSpan(Effective(operation, tableNumber, d).0)
  }

  /** The text `${left}${symbol}${right} =`. */
  function Equation(left: nat, symbol: string, right: nat): string {
    NatToString(left) + symbol + NatToString(right) + " ="
  }

  /** The switch over the effective operation. */
  function Compose(op: Operation, table: nat, k: int): Question
    requires 0 <= k <= OperandSpan(op)
  {
    match op
    case Add =>
      var num2: nat := RandomInt(1, 10, k);
      Question(Equation(table, " + ", num2), table + num2)
    case Sub =>
      var num1: nat := RandomInt(table, table + 10, k);
      Question(Equation(num1, " - ", table), num1 - table)
    case Mult =>
      var num2: nat := RandomInt(1, 10, k);
      Question(Equation(table, " x ", num2), table * num2)
    case Div =>
      if table == 0 then
        var num2: nat := RandomInt(1, 10, k);
        Question(Equation(0, " x ", num2), 0)
      else
        var result: nat := RandomInt(1, 10, k);
        Question(Equation(table * result, " \U{00F7} ", table), result)
  }

  /** `generateQuestion`, with its random draws given. */
  function GenerateQuestion(operation: Operation, tableNumber: Table, d: Draw): Question
    requires DrawFits(operation, tableNumber, d)
  {
    var (op, table) := Effective(operation, tableNumber, d);
    Compose(op, table, d.operandPick)
  }

  /** In mix mode the operation is the one picked and the table lies in 1..9, never 0. */
  lemma MixChoice(operation: Operation, d: Draw)
    requires DrawFits(operation, Mix, d)
    ensures var (op, table) := Effective(operation, Mix, d);
            op == OperationAt(d.opPick) && 1 <= table <= 9
  {
  }

  /** With a fixed table the table is used as chosen; only division by 0 changes operation, to multiplication. */
  lemma FixedTableChoice(operation: Operation, n: nat, d: Draw)
    requires DrawFits(operation, Number(n), d)
    ensures var (op, table) := Effective(operation, Number(n), d);
            table == n && op == (if operation == Div && n == 0 then Mult else operation)
  {
  }

  /** The divide-by-zero branch of the switch is never taken: division always has a non-zero table. */
  lemma NoZeroDivisor(operation: Operation, tableNumber: Table, d: Draw)
    requires DrawFits(operation, tableNumber, d)
    ensures var (op, table) := Effective(operation, tableNumber, d); op == Div ==> table != 0
  {
  }

  /** Addition shows "t + n =" with n in 1..10, and expects t + n. */
  lemma AdditionQuestion(operation: Operation, tableNumber: Table, d: Draw)
    requires DrawFits(operation, tableNumber, d)
    ensures var (op, t) := Effective(operation, tableNumber, d);
            var q := GenerateQuestion(operation, tableNumber, d);
            op == Add ==>
              1 <= q.answer - t <= 10 &&
              q.text == NatToString(t) + " + " + NatToString(q.answer - t) + " ="
  {
  }

  /** Subtraction shows "m - t =" with the minuend m in t..t+10, so the answer lies in 0..10. */
  lemma SubtractionQuestion(operation: Operation, tableNumber: Table, d: Draw)
    requires DrawFits(operation, tableNumber, d)
    ensures var (op, t) := Effective(operation, tableNumber, d);
            var q := GenerateQuestion(operation, tableNumber, d);
            op == Sub ==>
              0 <= q.answer <= 10 &&
              q.text == NatToString(t + q.answer) + " - " + NatToString(t) + " ="
  {
  }

  /** Multiplication shows "t x n =" with n in 1..10, and expects t * n. */
  lemma MultiplicationQuestion(operation: Operation, tableNumber: Table, d: Draw)
    requires DrawFits(operation, tableNumber, d)
    ensures var (op, t) := Effective(operation, tableNumber, d);
            var q := GenerateQuestion(operation, tableNumber, d);
            var n := d.operandPick + 1;
            op == Mult ==>
              1 <= n <= 10 && q.answer == t * n &&
              q.text == NatToString(t) + " x " + NatToString(n) + " ="
  {
  }

  /** Division shows "t*r ÷ t =" with t non-zero and r in 1..10, so the dividend is an exact multiple and r the answer. */
  lemma DivisionQuestion(operation: Operation, tableNumber: Table, d: Draw)
    requires DrawFits(operation, tableNumber, d)
    ensures var (op, t) := Effective(operation, tableNumber, d);
            var q := GenerateQuestion(operation, tableNumber, d);
            op == Div ==>
              t != 0 && 1 <= q.answer <= 10 &&
              q.text == NatToString(t * q.answer) + " \U{00F7} " + NatToString(t) + " ="
  {
  }

  /** Division by table 0 asks "0 x n =" for some n in 1..10, with answer 0. */
  lemma TableZeroDivision(d: Draw)
    requires DrawFits(Div, Number(0), d)
    ensures var q := GenerateQuestion(Div, Number(0), d);
            var n := d.operandPick + 1;
            1 <= n <= 10 && q.answer == 0 && q.text == "0 x " + NatToString(n) + " ="
  {
  }

  lemma CancelTail(a: string, b: string, rest: string)
    requires a + rest == b + rest
    ensures a == b
  {
    assert a == (a + rest)[..|a|];
  }

  lemma CancelHead(head: string, a: string, b: string)
    requires head + a == head + b
    ensures a == b
  {
    assert a == (head + a)[|head|..];
  }

  /** Two texts with the same operator and right operand differ when their left operands do. */
  lemma DistinctLeftOperands(m: nat, n: nat, symbol: string, right: nat)
    requires m != n
    ensures Equation(m, symbol, right) != Equation(n, symbol, right)
  {
    var rest := symbol + NatToString(right) + " =";
    assert Equation(m, symbol, right) == NatToString(m) + rest;
    assert Equation(n, symbol, right) == NatToString(n) + rest;
    if NatToString(m) + rest == NatToString(n) + rest {
      CancelTail(NatToString(m), NatToString(n), rest);
      NatToStringInjective(m, n);
    }
  }

  /** Two texts with the same left operand and operator differ when their right operands do. */
  lemma DistinctRightOperands(left: nat, symbol: string, m: nat, n: nat)
    requires m != n
    ensures Equation(left, symbol, m) != Equation(left, symbol, n)
  {
    var head := NatToString(left) + symbol;
    assert Equation(left, symbol, m) == head + (NatToString(m) + " =");
    assert Equation(left, symbol, n) == head + (NatToString(n) + " =");
    if head + (NatToString(m) + " =") == head + (NatToString(n) + " =") {
      CancelHead(head, NatToString(m) + " =", NatToString(n) + " =");
      CancelTail(NatToString(m), NatToString(n), " =");
      NatToStringInjective(m, n);
    }
  }

  /** For every selection two fitting draws, differing only in the operand, give different texts. */
  lemma TwoDistinctQuestions(operation: Operation, tableNumber: Table)
    ensures var d0, d1 := Draw(0, 0, 0), Draw(0, 0, 1);
            DrawFits(operation, tableNumber, d0) && DrawFits(operation, tableNumber, d1) &&
            GenerateQuestion(operation, tableNumber, d0).text != GenerateQuestion(operation, tableNumber, d1).text
  {
    var d0, d1 := Draw(0, 0, 0), Draw(0, 0, 1);
    var (op, t) := Effective(operation, tableNumber, d0);
    assert Effective(operation, tableNumber, d1) == (op, t);
    assert GenerateQuestion(operation, tableNumber, d0) == Compose(op, t, 0);
    assert GenerateQuestion(operation, tableNumber, d1) == Compose(op, t, 1);
    match op
    case Add => DistinctRightOperands(t, " + ", 1, 2);
    case Mult => DistinctRightOperands(t, " x ", 1, 2);
    case Sub => DistinctLeftOperands(t, t + 1, " - ", t);
    case Div => DistinctLeftOperands(t * 1, t * 2, " \U{00F7} ", t);
  }

  /** Whatever the previous question was, some draw gives a question with a different text. */
  lemma FreshQuestionExists(operation: Operation, tableNumber: Table, previous: string)
    ensures exists d :: DrawFits(operation, tableNumber, d) && GenerateQuestion(operation, tableNumber, d).text != previous
  {
    TwoDistinctQuestions(operation, tableNumber);
    var d0, d1 := Draw(0, 0, 0), Draw(0, 0, 1);
    if GenerateQuestion(operation, tableNumber, d0).text == previous {
      assert GenerateQuestion(operation, tableNumber, d1).text != previous;
    }
  }

  predicate AllFit(operation: Operation, tableNumber: Table, draws: seq<Draw>) {
    forall i :: 0 <= i < |draws| ==> DrawFits(operation, tableNumber, draws[i])
  }

  /** `generateQuestion` as the component defines it: a closure over its operation and table props. */
  function Generator(operation: Operation, tableNumber: Table): (generate: Draw --> Question)
    ensures forall d :: DrawFits(operation, tableNumber, d) ==>
              generate.requires(d) && generate(d) == GenerateQuestion(operation, tableNumber, d)
  {
    d requires DrawFits(operation, tableNumber, d) => GenerateQuestion(operation, tableNumber, d)
  }

  /** `k` is the first of `draws` whose question text differs from `previous`. */
  ghost predicate FirstFresh(generate: Draw --> Question, previous: string, draws: seq<Draw>, k: nat)
    requires forall i :: 0 <= i < |draws| ==> generate.requires(draws[i])
  {
    && k < |draws|
    && generate(draws[k]).text != previous
    && forall i :: 0 <= i < k ==> generate(draws[i]).text == previous
  }

  /** The redraw loop of the confirm handler: generate until the text differs from the previous question's. */
  method NextQuestion(generate: Draw --> Question, previous: string, draws: seq<Draw>)
    returns (q: Question, used: nat)
    requires forall i :: 0 <= i < |draws| ==> generate.requires(draws[i])
    requires exists i :: 0 <= i < |draws| && generate(draws[i]).text != previous
    ensures FirstFresh(generate, previous, draws, used)
    ensures q == generate(draws[used]) && q.text != previous
  {
    used := 0;
    q := generate(draws[0]);
    while q.text == previous
      invariant used < |draws| && q == generate(draws[used])
      invariant forall i :: 0 <= i < used ==> generate(draws[i]).text == previous
      decreases |draws| - used
    {
      used := used + 1;
      q := generate(draws[used]);
    }
  }

  /** The typed answer: at most four decimal digits. */
  predicate IsAnswerBuffer(buffer: string) {
    |buffer| <= 4 && AllDigits(buffer, 10)
  }

  /**
   * With a table the setup screen offers (0..9, or mix) every answer lies in
   * 0..90, so its decimal text fits the four-digit answer buffer.
   */
  lemma AnswerFitsKeypad(operation: Operation, tableNumber: Table, d: Draw)
    requires DrawFits(operation, tableNumber, d)
    requires tableNumber.Mix? || tableNumber.n <= 9
    ensures var q := GenerateQuestion(operation, tableNumber, d);
            0 <= q.answer <= 90 && IsAnswerBuffer(NatToString(q.answer))
  {
    var (op, t) := Effective(operation, tableNumber, d);
    assert t <= 9;
    var q := GenerateQuestion(operation, tableNumber, d);
    match op {
      case Add => AdditionQuestion(operation, tableNumber, d);
      case Sub => SubtractionQuestion(operation, tableNumber, d);
      case Mult =>
        MultiplicationQuestion(operation, tableNumber, d);
        MulMonotone(t, 9, d.operandPick + 1, 10);
      case Div => DivisionQuestion(operation, tableNumber, d);
    }
    ShortNumeral(q.answer);
  }

  /** Numbers below 100 have at most two decimal digits. */
  lemma ShortNumeral(n: nat)
    requires n < 100
    ensures IsAnswerBuffer(NatToString(n))
  {
    if n >= 10 {
      assert NatToString(n / 10) == [DigitChar(n / 10)];
    }
  }


  /** The buffer after a digit key: the digit is appended only while fewer than four are typed. */
  function PressedDigit(buffer: string, num: nat): (r: string)
    requires num <= 9
    ensures |buffer| < 4 ==> r == buffer + [DigitChar(num)]
    ensures |buffer| >= 4 ==> r == buffer
  {
    if |buffer| < 4 then buffer + NatToString(num) else buffer
  }

  /** The buffer after backspace: `slice(0, -1)`, which leaves an empty buffer empty. */
  function Backspaced(buffer: string): (r: string)
    ensures |buffer| == 0 ==> r == ""
    ensures |buffer| > 0 ==> r + [buffer[|buffer| - 1]] == buffer
  {
    if |buffer| == 0 then buffer else buffer[..|buffer| - 1]
  }

  /** Both keys keep the buffer at most four digits long. */
  lemma KeysKeepBuffer(buffer: string, num: nat)
    requires num <= 9 && IsAnswerBuffer(buffer)
    ensures IsAnswerBuffer(PressedDigit(buffer, num)) && IsAnswerBuffer(Backspaced(buffer))
  {
  }

  /** Backspace undoes a digit key that was accepted. */
  lemma BackspaceUndoesDigit(buffer: string, num: nat)
    requires num <= 9 && |buffer| < 4
    ensures Backspaced(PressedDigit(buffer, num)) == buffer
  {
  }

  /** The typed answer is right: `parseInt(buffer, 10)` equals the expected answer. */
  predicate IsCorrect(buffer: string, q: Question) {
    ParseInt(buffer, 10) == Some(q.answer)
  }

  /** For a non-empty digit buffer, being right means its decimal value is the answer. */
  lemma CorrectMeansDecimalValue(buffer: string, q: Question)
    requires buffer != "" && IsAnswerBuffer(buffer)
    ensures IsCorrect(buffer, q) <==> Value(buffer, 10) == q.answer
  {
    ParseIntOfDigits(buffer, 10);
  }

  /** The state of one mounted round. */
  class Round {
    const operation: Operation
    const tableNumber: Table
    var timeLeft: int
    var currentAnswer: string
    var score: nat
    var currentQuestion: Question

    ghost predicate Valid()
      reads this
    {
      IsAnswerBuffer(currentAnswer)
    }

    /** Mounting: the initial state, then the first question drawn by the mount effect. */
    constructor (totalTimeInSeconds: int, operation: Operation, tableNumber: Table, d: Draw)
      requires DrawFits(operation, tableNumber, d)
      ensures Valid()
      ensures this.operation == operation && this.tableNumber == tableNumber
      ensures timeLeft == totalTimeInSeconds && currentAnswer == "" && score == 0
      ensures currentQuestion == GenerateQuestion(operation, tableNumber, d)
    {
      this.operation := operation;
      this.tableNumber := tableNumber;
      timeLeft := totalTimeInSeconds;
      currentAnswer := "";
      score := 0;
      currentQuestion := GenerateQuestion(operation, tableNumber, d);
    }

    /** A digit key (the keypad offers 0-9). */
    method PressDigit(num: nat)
      requires Valid() && num <= 9
      modifies this
      ensures Valid()
      ensures currentAnswer == PressedDigit(old(currentAnswer), num)
      ensures timeLeft == old(timeLeft) && score == old(score) && currentQuestion == old(currentQuestion)
    {
      if |currentAnswer| < 4 {
        currentAnswer := currentAnswer + NatToString(num);
      }
    }

    method Backspace()
      requires Valid()
      modifies this
      ensures Valid()
      ensures currentAnswer == Backspaced(old(currentAnswer))
      ensures timeLeft == old(timeLeft) && score == old(score) && currentQuestion == old(currentQuestion)
    {
      currentAnswer := Backspaced(currentAnswer);
    }

    /**
     * Confirm: nothing happens on an empty buffer; otherwise a right answer
     * scores one point, the buffer is cleared and the next question is the
     * first of `draws` whose text differs from the current one.
     */
    method Confirm(draws: seq<Draw>)
      requires Valid() && AllFit(operation, tableNumber, draws)
      requires currentAnswer != "" ==>
        exists i :: 0 <= i < |draws| && GenerateQuestion(operation, tableNumber, draws[i]).text != currentQuestion.text
      modifies this
      ensures Valid() && timeLeft == old(timeLeft)
      ensures old(currentAnswer) == "" ==>
        currentAnswer == "" && score == old(score) && currentQuestion == old(currentQuestion)
      ensures old(currentAnswer) != "" ==>
        && currentAnswer == ""
        && score == old(score) + (if Value(old(currentAnswer), 10) == old(currentQuestion).answer then 1 else 0)
        && currentQuestion.text != old(currentQuestion).text
        && exists k: nat :: FirstFresh(Generator(operation, tableNumber), old(currentQuestion).text, draws, k) &&
                            currentQuestion == GenerateQuestion(operation, tableNumber, draws[k])
    {
      if |currentAnswer| == 0 {
        return;
      }
      CorrectMeansDecimalValue(currentAnswer, currentQuestion);
      if IsCorrect(currentAnswer, currentQuestion) {
        score := score + 1;
      }
      var next, used := NextQuestion(Generator(operation, tableNumber), currentQuestion.text, draws);
      currentQuestion := next;
      currentAnswer := "";
    }

    /**
     * One run of the timer effect: at or below zero seconds it reports the
     * score and arms nothing; otherwise its interval fires once, taking one
     * second off, and the change of `timeLeft` re-runs the effect.
     */
    method Tick() returns (report: Option<int>)
      requires Valid()
      modifies this
      ensures Valid()
      ensures old(timeLeft) <= 0 ==> report == Some(score) && timeLeft == old(timeLeft)
      ensures old(timeLeft) > 0 ==> report == None && timeLeft == old(timeLeft) - 1
      ensures currentAnswer == old(currentAnswer) && score == old(score) && currentQuestion == old(currentQuestion)
    {
      if timeLeft <= 0 {
        report := Some(score);
        return;
      }
      timeLeft := timeLeft - 1;
      report := None;
    }
  }
}

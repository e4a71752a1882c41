/**
 * The session: setup, playing and finished screens, the high-score key, and
 * the high-score read, compare and write when a round ends. The browser's
 * `localStorage` is the map `store`.
 */
module Home {
  import opened Wrappers
  import opened Numerals
  import opened JsText
  import opened GameView

  datatype GameState = Setup | Playing | Finished

  /** The length of a round, in seconds, that the session gives the round. */
  const RoundSeconds := 15

  function OperationName(op: Operation): string {
    match op
    case Add => "add"
    case Sub => "sub"
    case Mult => "mult"
    case Div => "div"
  }

  /** The high-score key: one for mix whatever the operation, else one per operation (addition when none). */
  function StorageKey(selectedOp: Option<Operation>, selectedNum: Option<Table>): (key: string)
    ensures |key| > 10 && key[..10] == "highscore_"
    ensures key == "highscore_mix" <==> selectedNum == Some(Mix)
  {
    if selectedNum == Some(Mix) then "highscore_mix" else "highscore_" + OperationName(selectedOp.GetOr(Add))
  }

  /** The key depends on the operation and on "mix or not", never on the table number. */
  lemma KeyIgnoresTableNumber(selectedOp: Option<Operation>, m: nat, n: nat)
    ensures StorageKey(selectedOp, Some(Number(m))) == StorageKey(selectedOp, Some(Number(n)))
    ensures StorageKey(selectedOp, Some(Number(n))) == StorageKey(selectedOp, None)
  {
  }

  /** Different operations keep apart, and neither is confused with mix. */
  lemma KeysSeparateModes(op1: Operation, op2: Operation, t: Option<Table>)
    requires t != Some(Mix)
    ensures StorageKey(Some(op1), t) == StorageKey(Some(op2), t) <==> op1 == op2
    ensures StorageKey(Some(op1), t) != StorageKey(Some(op2), Some(Mix))
    ensures StorageKey(None, t) == StorageKey(Some(Add), t)
  {
    var k1, k2 := StorageKey(Some(op1), t), StorageKey(Some(op2), t);
    if op1 != op2 {
      assert k1[10..] == OperationName(op1) && k2[10..] == OperationName(op2);
    }
    assert StorageKey(Some(op1), t)[10..] == OperationName(op1);
  }

  /** The stored text the round end reads: the stored value, or "0" when there is none or it is empty. */
  function StoredText(store: map<string, string>, key: string): string {
    if key in store && store[key] != "" then store[key] else "0"
  }

  /** The old high score: the stored text parsed in radix 3; `None` is NaN. */
  function ReadHighScore(store: map<string, string>, key: string): Option<int> {
    ParseInt(StoredText(store, key), 3)
  }

  /** `score > oldHighScore`, which is false when the old high score is NaN. */
  predicate Beats(score: int, oldHigh: Option<int>) {
    oldHigh.Some? && score > oldHigh.value
  }

  /** With nothing stored, the old high score reads as 0. */
  lemma NothingStoredReadsZero(store: map<string, string>, key: string)
    requires key !in store || store[key] == ""
    ensures ReadHighScore(store, key) == Some(0)
  {
    ParseIntOfDigits("0", 3);
  }

  /** A stored text whose first character is not 0, 1, 2, white space or a sign reads as NaN, and then no score beats it. */
  lemma NonTernaryTextReadsNaN(store: map<string, string>, key: string, score: int)
    requires key in store && store[key] != ""
    requires var c := store[key][0]; !IsJsWhiteSpace(c) && c != '-' && c != '+' && !IsRadixDigit(c, 3)
    ensures ReadHighScore(store, key) == None && !Beats(score, ReadHighScore(store, key))
  {
    ParseIntFirstChar(store[key], 3);
  }

  /** A written score of 0, 1 or 2 reads back unchanged. */
  lemma SmallScoreReadsBack(store: map<string, string>, key: string, score: nat)
    requires score <= 2
    ensures ReadHighScore(store[key := NatToString(score)], key) == Some(score)
  {
    var s := NatToString(score);
    assert ReadHighScore(store[key := s], key) == ParseInt(s, 3);
    assert AllDigits(s, 3);
    ParseIntOfDigits(s, 3);
  }

  /** A written score whose leading decimal digit is 3 or more reads back as NaN. */
  lemma LargeLeadingDigitReadsNaN(store: map<string, string>, key: string, score: nat)
    requires NatToString(score)[0] >= '3'
    ensures ReadHighScore(store[key := NatToString(score)], key) == None
  {
    var s := NatToString(score);
    assert ReadHighScore(store[key := s], key) == ParseInt(s, 3);
    assert IsRadixDigit(s[0], 10);
    DigitIsPlain(s[0]);
    assert !IsRadixDigit(s[0], 3);
    ParseIntFirstChar(s, 3);
  }

  /** Reading a written score back in radix 3 never gives more than the score. */
  lemma ScoreReadsBackNoHigher(store: map<string, string>, key: string, score: nat)
    ensures var r := ReadHighScore(store[key := NatToString(score)], key);
            r.None? || (0 <= r.value <= score)
  {
    var s := NatToString(score);
    assert ReadHighScore(store[key := s], key) == ParseInt(s, 3);
    assert IsRadixDigit(s[0], 10);
    DigitIsPlain(s[0]);
    assert TrimStart(s) == s;
    var k := DigitPrefixLength(s, 3);
    if k > 0 {
      ValueGrowsWithRadix(s[..k], 3, 10);
      PrefixValueBound(s, k, 10);
      ValueOfNatToString(score);
    }
  }

  /**
   * A written score of 10 or more whose leading decimal digit is 1 or 2 reads
   * back as a smaller number, so the same score beats it at the next round end.
   */
  lemma ScoreReadsBackLower(store: map<string, string>, key: string, score: nat)
    requires score >= 10 && NatToString(score)[0] <= '2'
    ensures var r := ReadHighScore(store[key := NatToString(score)], key);
            r.Some? && r.value < score && Beats(score, r)
  {
    var s := NatToString(score);
    assert ReadHighScore(store[key := s], key) == ParseInt(s, 3);
    assert IsRadixDigit(s[0], 10);
    assert IsRadixDigit(s[0], 3);
    DigitIsPlain(s[0]);
    assert TrimStart(s) == s;
    var k := DigitPrefixLength(s, 3);
    assert k >= 1;
    assert ParseInt(s, 3) == Some(Value(s[..k], 3));
    ValueOfNatToString(score);
    ValueGrowsWithRadix(s[..k], 3, 10);
    if k < |s| {
      if Value(s[..k], 10) >= 1 {
        PrefixValueStrict(s, k, 10);
      }
    } else {
      assert s[..k] == s;
      var init := s[..|s| - 1];
      assert Value(s, 10) == Value(init, 10) * 10 + DigitValue(s[|s| - 1]).value;
      ValueStrictlyGrows(s, 3, 10);
    }
  }

  /** The stored "12" reads as 5, so a later score of 6 overwrites it. */
  lemma TwelveReadsAsFive(store: map<string, string>, key: string)
    requires key in store && store[key] == "12"
    ensures ReadHighScore(store, key) == Some(5) && Beats(6, ReadHighScore(store, key))
  {
    assert AllDigits("12", 3);
    ParseIntOfDigits("12", 3);
    assert "12"[..1] == "1";
    assert Value("1", 3) == 1 by {
      assert "1"[..0] == [];
    }
  }

  /** The top-level session state. */
  class Session {
    var selectedOp: Option<Operation>
    var selectedNum: Option<Table>
    var gameState: GameState
    var finalScore: int
    var highScore: Option<int>  // None when the old high score read as NaN
    var storageKey: string
    var store: map<string, string>

    /**
     * The key effect has run for the current selections, and once the setup
     * screen is left both selections are present, so the casts the playing
     * screen makes of them are sound.
     */
    ghost predicate Valid()
      reads this
    {
      && storageKey == StorageKey(selectedOp, selectedNum)
      && (gameState != Setup ==> selectedOp.Some? && selectedNum.Some?)
    }

    /** The first render, after the key effect has run; `store` is what the browser holds. */
    constructor (store: map<string, string>)
      ensures Valid()
      ensures selectedOp == None && selectedNum == None && gameState == Setup
      ensures finalScore == 0 && highScore == Some(0) && this.store == store
      ensures storageKey == "highscore_add"
    {
      selectedOp, selectedNum := None, None;
      gameState := Setup;
      finalScore, highScore := 0, Some(0);
      storageKey := StorageKey(None, None);
      this.store := store;
    }

    /** The operation setter the setup screen calls, followed by the key effect. */
    method SelectOperation(op: Operation)
      requires Valid() && gameState == Setup
      modifies this
      ensures Valid() && selectedOp == Some(op)
      ensures selectedNum == old(selectedNum) && gameState == old(gameState) && finalScore == old(finalScore)
      ensures highScore == old(highScore) && store == old(store)
    {
      selectedOp := Some(op);
      storageKey := StorageKey(selectedOp, selectedNum);
    }

    /** The table setter the setup screen calls, followed by the key effect. */
    method SelectTable(t: Table)
      requires Valid() && gameState == Setup
      modifies this
      ensures Valid() && selectedNum == Some(t)
      ensures selectedOp == old(selectedOp) && gameState == old(gameState) && finalScore == old(finalScore)
      ensures highScore == old(highScore) && store == old(store)
    {
      selectedNum := Some(t);
      storageKey := StorageKey(selectedOp, selectedNum);
    }

    /** `handleStartGame`, the setup screen's confirm: play only once both an operation and a table (0 included) are chosen. */
    method StartGame()
      requires Valid() && gameState == Setup
      modifies this
      ensures Valid()
      ensures gameState == if old(selectedOp).Some? && old(selectedNum).Some? then Playing else Setup
      ensures selectedOp == old(selectedOp) && selectedNum == old(selectedNum) && storageKey == old(storageKey)
      ensures finalScore == old(finalScore) && highScore == old(highScore) && store == old(store)
    {
      if selectedOp.Some? && selectedNum.Some? {
        gameState := Playing;
      }
    }

    /** The playing screen: a round of `RoundSeconds` seconds over the selected operation and table. */
    method MountRound(d: Draw) returns (r: Round)
      requires Valid() && gameState == Playing
      requires DrawFits(selectedOp.value, selectedNum.value, d)
      ensures fresh(r) && r.Valid()
      ensures r.operation == selectedOp.value && r.tableNumber == selectedNum.value
      ensures r.timeLeft == RoundSeconds && r.currentAnswer == "" && r.score == 0
      ensures r.currentQuestion == GenerateQuestion(selectedOp.value, selectedNum.value, d)
    {
      r := new Round(RoundSeconds, selectedOp.value, selectedNum.value, d);
    }

    /**
     * `handleTimeUp`, called by the playing screen's timer: read the old high
     * score, write the score only when it beats it, and show the results.
     */
    method TimeUp(score: nat)
      requires Valid() && gameState == Playing
      modifies this
      ensures Valid()
      ensures var oldHigh := ReadHighScore(old(store), storageKey);
              && gameState == Finished && finalScore == score
              && (Beats(score, oldHigh) ==> highScore == Some(score) && store == old(store)[storageKey := NatToString(score)])
              && (!Beats(score, oldHigh) ==> highScore == oldHigh && store == old(store))
      ensures selectedOp == old(selectedOp) && selectedNum == old(selectedNum) && storageKey == old(storageKey)
    {
      var oldHighScore := ReadHighScore(store, storageKey);
      var newHighScore := oldHighScore;
      if Beats(score, oldHighScore) {
        store := store[storageKey := NatToString(score)];
        newHighScore := Some(score);
      }
      finalScore := score;
      highScore := newHighScore;
      gameState := Finished;
    }

    /** `handleResetGame`, the results screen's restart: back to setup with nothing selected and both scores 0; the store is kept. */
    method ResetGame()
      requires Valid() && gameState == Finished
      modifies this
      ensures Valid()
      ensures gameState == Setup && selectedOp == None && selectedNum == None
      ensures finalScore == 0 && highScore == Some(0) && store == old(store)
    {
      gameState := Setup;
      selectedOp, selectedNum := None, None;
      finalScore, highScore := 0, Some(0);
      storageKey := StorageKey(selectedOp, selectedNum);
    }
  }
}

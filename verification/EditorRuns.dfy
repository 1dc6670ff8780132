/** What the keys of the line editor mean over runs: the arrow keys, the history and the ends of lines. */
module EditorRuns {
  import opened Bytes
  import opened Options
  import opened LineEditor

  /** The sequences a terminal sends for its arrow keys, `k` times. */
  function Presses(ch: u8, k: nat): seq<u8> { if k == 0 then [] else Presses(ch, k - 1) + [0x1B, 0x5B, ch] }

  function Ups(k: nat): seq<u8> { Presses(0x41, k) }
  function Downs(k: nat): seq<u8> { Presses(0x42, k) }
  function Rights(k: nat): seq<u8> { Presses(0x43, k) }
  function Lefts(k: nat): seq<u8> { Presses(0x44, k) }

  function Least(a: nat, b: nat): nat { if a < b then a else b }

  function Less(a: nat, b: nat): nat { if a < b then 0 else a - b }

  lemma {:induction false} RunOfNone(e: Editor)
    requires Sound(e)
    ensures HandledAll(e, []) && Run(e, []) == (e, [])
  {
  }

  lemma {:induction false} RunUnfolds(e: Editor, keys: seq<u8>, ch: u8)
    requires Sound(e) && HandledAll(e, keys + [ch])
    ensures HandledAll(e, keys) && Handled(Run(e, keys).0, ch)
  {
    hide Pressed, Handled, Sound;
    assert (keys + [ch])[..|keys + [ch]| - 1] == keys;
  }

  lemma {:induction false} RunConcat(e: Editor, a: seq<u8>, b: seq<u8>)
    requires Sound(e) && HandledAll(e, a) && HandledAll(Run(e, a).0, b)
    ensures HandledAll(e, a + b)
    ensures Run(e, a + b) == (Run(Run(e, a).0, b).0, Run(e, a).1 + Run(Run(e, a).0, b).1)
    decreases |b|
  {
    hide *;
    var f := Run(e, a).0;
    if b == [] {
      RunOfNone(f);
      assert a + b == a && Run(e, a).1 + [] == Run(e, a).1;
    } else {
      var front, ch := b[..|b| - 1], b[|b| - 1];
      assert b == front + [ch];
      RunUnfolds(f, front, ch);
      RunConcat(e, a, front);
      RunSnoc(f, front, ch);
      RunSnoc(e, a + front, ch);
      assert a + b == a + front + [ch];
      assert Run(e, a + b).1 == Run(e, a).1 + Run(f, b).1;
    }
  }

  /** The three bytes of an arrow key. */
  lemma {:induction false} ArrowRun(e: Editor, ch: u8)
    requires Sound(e) && e.stat == Normal && 0x41 <= ch <= 0x44
    ensures HandledAll(e, [0x1B, 0x5B, ch]) && Run(e, [0x1B, 0x5B, ch]) == (Moved(e, ch), [])
  {
    RunOfNone(e);
    RunSnoc(e, [], 0x1B);
    RunSnoc(e, [0x1B], 0x5B);
    RunSnoc(e, [0x1B, 0x5B], ch);
    assert [] + [0x1B] == [0x1B] && [0x1B] + [0x5B] == [0x1B, 0x5B] && [0x1B, 0x5B] + [ch] == [0x1B, 0x5B, ch];
  }

  /** One more press of the key. */
  lemma {:induction false} PressedOnce(e: Editor, ch: u8, k: nat, f: Editor)
    requires Sound(e) && 0x41 <= ch <= 0x44 && Sound(f) && f.stat == Normal
    requires HandledAll(e, Presses(ch, k)) && Run(e, Presses(ch, k)) == (f, [])
    ensures HandledAll(e, Presses(ch, k + 1)) && Run(e, Presses(ch, k + 1)) == (Moved(f, ch), [])
  {
    hide *;
    hide Presses;
    ArrowRun(f, ch);
    RunConcat(e, Presses(ch, k), [0x1B, 0x5B, ch]);
    PressesMore(ch, k);
    assert [] + Run(f, [0x1B, 0x5B, ch]).1 == [];
  }

  lemma {:induction false} PressesMore(ch: u8, k: nat)
    ensures Presses(ch, k + 1) == Presses(ch, k) + [0x1B, 0x5B, ch]
  {
  }

  lemma {:induction false} NoPress(e: Editor, ch: u8)
    requires Sound(e)
    ensures HandledAll(e, Presses(ch, 0)) && Run(e, Presses(ch, 0)) == (e, [])
  {
    RunOfNone(e);
  }

  // ---- The cursor ----

  lemma {:induction false} LeftsMove(e: Editor, k: nat)
    requires Sound(e) && e.stat == Normal
    ensures HandledAll(e, Lefts(k)) && Run(e, Lefts(k)) == (e.(cursor := Less(e.cursor, k)), [])
  {
    hide Run, HandledAll, Presses;
    if k == 0 {
      NoPress(e, 0x44);
    } else {
      LeftsMove(e, k - 1);
      PressedOnce(e, 0x44, k - 1, e.(cursor := Less(e.cursor, k - 1)));
    }
  }

  lemma {:induction false} RightsMove(e: Editor, k: nat)
    requires Sound(e) && e.stat == Normal
    ensures HandledAll(e, Rights(k)) && Run(e, Rights(k)) == (e.(cursor := Least(e.cursor + k, |e.text|)), [])
  {
    hide Run, HandledAll, Presses;
    if k == 0 {
      NoPress(e, 0x43);
    } else {
      RightsMove(e, k - 1);
      PressedOnce(e, 0x43, k - 1, e.(cursor := Least(e.cursor + k - 1, |e.text|)));
    }
  }

  /** As many rights as lefts bring the cursor back. */
  lemma {:induction false} RightsUndoLefts(e: Editor, k: nat)
    requires Sound(e) && e.stat == Normal && k <= e.cursor
    ensures HandledAll(e, Lefts(k) + Rights(k)) && Run(e, Lefts(k) + Rights(k)) == (e, [])
  {
    hide Run, HandledAll, Presses;
    LeftsMove(e, k);
    RightsMove(e.(cursor := e.cursor - k), k);
    RunConcat(e, Lefts(k), Rights(k));
    assert e.(cursor := e.cursor - k).(cursor := e.cursor) == e;
    assert Run(e, Lefts(k) + Rights(k)).1 == [];
  }

  /** A word typed after `k` lefts goes in `k` bytes before the end, and the line is submitted so. */
  lemma {:induction false} WordAfterLefts(e: Editor, k: nat, word: seq<u8>)
    requires Sound(e) && e.stat == Normal && e.cursor == |e.text| && k <= |e.text| && |e.text| + |word| < SHELL_BUFFER_SIZE
    requires (forall i :: 0 <= i < |word| ==> Plain(word[i])) && e.text + word != [] && (e.endOfLine == 0 || e.endOfLine == 0x0D)
    ensures HandledAll(e, Lefts(k) + word + [0x0D])
    ensures Run(e, Lefts(k) + word + [0x0D]).1 == [e.text[..|e.text| - k] + word + e.text[|e.text| - k..]]
  {
    hide Run, HandledAll, Presses, Pressed, Remembered, Handled, Up, Plain;
    var f := e.(cursor := |e.text| - k);
    LeftsMove(e, k);
    WordIsInserted(f, word);
    RunConcat(e, Lefts(k), word);
    EnterSubmits(WithWord(f, word));
    RunSnoc(e, Lefts(k) + word, 0x0D);
  }

  // ---- The history ----

  /** The `k`-th up brings the `k`-th newest line, and the oldest from then on. */
  lemma {:induction false} UpsRecall(e: Editor, k: nat)
    requires Sound(e) && e.stat == Normal && e.histCurrent == 0 && e.histCount > 0 && k > 0
    ensures HandledAll(e, Ups(k))
    ensures var line := e.history[Least(k, e.histCount) - 1];
            Run(e, Ups(k)) == (e.(text := line, cursor := |line|, histCurrent := Least(k, e.histCount - 1)), [])
  {
    hide Run, HandledAll, Presses;
    if k == 1 {
      NoPress(e, 0x41);
      PressedOnce(e, 0x41, 0, e);
    } else {
      UpsRecall(e, k - 1);
      PressedOnce(e, 0x41, k - 1, Run(e, Ups(k - 1)).0);
    }
  }

  /** A down brings the line at the history position and then moves to a newer one, to the newest at most. */
  lemma {:induction false} DownsRecall(e: Editor, k: nat)
    requires Sound(e) && e.stat == Normal && e.histCount > 0 && k > 0
    ensures HandledAll(e, Downs(k))
    ensures var line := e.history[Less(e.histCurrent, k - 1)];
            Run(e, Downs(k)) == (e.(text := line, cursor := |line|, histCurrent := Less(e.histCurrent, k)), [])
  {
    hide Run, HandledAll, Presses;
    if k == 1 {
      NoPress(e, 0x42);
      PressedOnce(e, 0x42, 0, e);
    } else {
      DownsRecall(e, k - 1);
      PressedOnce(e, 0x42, k - 1, Run(e, Downs(k - 1)).0);
    }
  }

  /** So the first down after the `k`-th up brings a line one older, unless that was the oldest. */
  lemma {:induction false} DownAfterUps(e: Editor, k: nat)
    requires Sound(e) && e.stat == Normal && e.histCurrent == 0 && e.histCount > 0 && k > 0
    ensures HandledAll(e, Ups(k) + Downs(1))
    ensures Run(e, Ups(k) + Downs(1)).0.text == e.history[Least(k, e.histCount - 1)]
  {
    hide Run, HandledAll, Presses;
    UpsRecall(e, k);
    DownsRecall(Run(e, Ups(k)).0, 1);
    RunConcat(e, Ups(k), Downs(1));
  }

  /** Without history the arrows leave the text. */
  lemma {:induction false} NothingToRecall(e: Editor, ch: u8)
    requires Sound(e) && e.stat == Normal && e.histCount == 0 && (ch == 0x41 || ch == 0x42)
    ensures HandledAll(e, [0x1B, 0x5B, ch]) && Run(e, [0x1B, 0x5B, ch]) == (e.(histCurrent := 0), [])
  {
    ArrowRun(e, ch);
  }

  /** The comparison of the line with the newest of the history does not come out as the length of the line. */
  predicate Differs(word: seq<u8>, last: seq<u8>) {
    var i := FirstDifference(word, last);
    i == |word| || word[i] - ByteOf(last, i) != |word|
  }

  lemma {:induction false} EnterRemembers(e: Editor)
    requires Sound(e) && e.stat == Normal && e.text != [] && Differs(e.text, e.history[0]) && (e.endOfLine == 0 || e.endOfLine == 0x0D)
    ensures Handled(e, 0x0D)
    ensures Pressed(e, 0x0D) ==
            (Editor([], 0, Normal, [e.text, e.history[0], e.history[1]], Least(3, e.histCount + 1), 0, 0x0D), Some(e.text))
  {
    CompareIsFirstDifference(e.text, e.history[0]);
    hide Compare, FirstDifference;
  }

  /** A submitted line goes in front of the history, which keeps three. */
  lemma {:induction false} LineIsRemembered(e: Editor, word: seq<u8>)
    requires Sound(e) && e.stat == Normal && e.text == [] && 0 < |word| < SHELL_BUFFER_SIZE && Differs(word, e.history[0])
    requires (forall i :: 0 <= i < |word| ==> Plain(word[i])) && (e.endOfLine == 0 || e.endOfLine == 0x0D)
    ensures HandledAll(e, word + [0x0D])
    ensures Run(e, word + [0x0D]) ==
            (Editor([], 0, Normal, [word, e.history[0], e.history[1]], Least(3, e.histCount + 1), 0, 0x0D), [word])
  {
    hide Run, HandledAll, Pressed, Handled, Plain, Differs;
    WordIsInserted(e, word);
    var g := WithWord(e, word);
    assert g.text == word;
    EnterRemembers(g);
    hide Sound, WithWord;
    RunSnoc(e, word, 0x0D);
    assert [] + [word] == [word];
  }

  /** After that the `k`-th up brings the line, then the earlier ones from the newest to the oldest that is kept. */
  lemma {:induction false} SubmittedIsRecalled(e: Editor, word: seq<u8>, k: nat)
    requires Sound(e) && e.stat == Normal && e.text == [] && 0 < |word| < SHELL_BUFFER_SIZE && Differs(word, e.history[0]) && k > 0
    requires (forall i :: 0 <= i < |word| ==> Plain(word[i])) && (e.endOfLine == 0 || e.endOfLine == 0x0D)
    ensures HandledAll(e, word + [0x0D] + Ups(k))
    ensures var lines := [word] + e.history[..e.histCount];
            Run(e, word + [0x0D] + Ups(k)).0.text == lines[Least(k, Least(3, |lines|)) - 1]
  {
    hide Run, HandledAll, Presses, Plain, Differs;
    LineIsRemembered(e, word);
    UpsRecall(Run(e, word + [0x0D]).0, k);
    RunConcat(e, word + [0x0D], Ups(k));
  }

  // ---- The other keys ----

  /** Once a line was ended by one of the two characters the other one is ignored, and an empty line is not submitted. */
  lemma {:induction false} LineEndings(e: Editor, ch: u8)
    requires Sound(e) && e.stat == Normal && (ch == 0x0A || ch == 0x0D) && Handled(e, ch)
    ensures e.endOfLine == (if ch == 0x0A then 0x0D else 0x0A) ==> Pressed(e, ch) == (e, None)
    ensures e.text == [] && (e.endOfLine == 0 || e.endOfLine == ch) ==> Pressed(e, ch) == (e.(endOfLine := ch), None)
    ensures e.text != [] && (e.endOfLine == 0 || e.endOfLine == ch) ==>
              var (f, line) := Pressed(e, ch);
              line == Some(e.text) && f.text == [] && f.cursor == 0 && f.endOfLine == ch && f.histCurrent == 0
  {
  }

  /** At the start of the line backspace and delete do nothing. */
  lemma {:induction false} NothingToErase(e: Editor, ch: u8)
    requires Sound(e) && e.stat == Normal && e.cursor == 0 && (ch == 0x08 || ch == 0x7F)
    ensures Handled(e, ch) && Pressed(e, ch) == (e, None)
  {
  }

  /** An escape that no bracket follows is dropped. */
  lemma {:induction false} LoneEscape(e: Editor, ch: u8)
    requires Sound(e) && e.stat == Normal && Plain(ch) && ch != 0x5B && |e.text| < SHELL_BUFFER_SIZE - 1
    ensures HandledAll(e, [0x1B, ch]) && Run(e, [0x1B, ch]) == (WithWord(e, [ch]), [])
  {
    RunOfNone(e);
    RunSnoc(e, [], 0x1B);
    assert [] + [0x1B] == [0x1B] && [0x1B] + [ch] == [0x1B, ch];
    hide Run, HandledAll;
    RunSnoc(e, [0x1B], ch);
  }

  /** A sequence for no arrow key is dropped whole, and so is a byte 0xFF. */
  lemma {:induction false} UnknownSequence(e: Editor, ch: u8)
    requires Sound(e) && e.stat == Normal && ch != 0 && ch != 0x1B && ch != 0xFF && !(0x41 <= ch <= 0x44)
    ensures HandledAll(e, [0x1B, 0x5B, ch]) && Run(e, [0x1B, 0x5B, ch]) == (e, [])
    ensures Handled(e, 0xFF) && Pressed(e, 0xFF) == (e, None)
  {
    RunOfNone(e);
    RunSnoc(e, [], 0x1B);
    assert [] + [0x1B] == [0x1B] && [0x1B] + [0x5B] == [0x1B, 0x5B] && [0x1B, 0x5B] + [ch] == [0x1B, 0x5B, ch];
    hide Run, HandledAll;
    RunSnoc(e, [0x1B], 0x5B);
    RunSnoc(e, [0x1B, 0x5B], ch);
  }
}

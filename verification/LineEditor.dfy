/**
 * The line editor of `SHELL_Main`: a buffer edited in place with a cursor and a short history, proved against an editor
 * on sequences.
 */
module LineEditor {
  import opened Bytes
  import opened Options

  const SHELL_BUFFER_SIZE: nat := 64
  const SHELL_HIST_MAX: nat := 3
  const KEY_ESC: u8 := 0x1B
  const KEY_DEL: u8 := 0x7F
  const KEY_BACKSPACE: u8 := 0x08
  const KEY_TAB: u8 := 0x09
  const KEY_CR: u8 := 0x0D
  const KEY_LF: u8 := 0x0A
  const KEY_BRACKET: u8 := 0x5B

  datatype Stat = Normal | Special | Function

  /** The edited text and cursor, the previous lines (newest first), and the line ending the shell has settled on. */
  datatype Editor = Editor(text: seq<u8>, cursor: nat, stat: Stat, history: seq<seq<u8>>, histCount: nat, histCurrent: nat,
                           endOfLine: u8)

  /** A text that its buffer holds with a terminator. */
  predicate Storable(t: seq<u8>) { |t| < SHELL_BUFFER_SIZE && 0 !in t }

  predicate Sound(e: Editor) {
    && Storable(e.text) && e.cursor <= |e.text|
    && |e.history| == SHELL_HIST_MAX && e.histCount <= SHELL_HIST_MAX && (e.histCurrent < e.histCount || e.histCurrent == 0)
    && forall i :: 0 <= i < SHELL_HIST_MAX ==> Storable(e.history[i]) && (e.history[i] != [] <==> i < e.histCount)
  }

  const FRESH_EDITOR: Editor := Editor([], 0, Normal, [[], [], []], 0, 0, 0)

  lemma FreshIsSound()
    ensures Sound(FRESH_EDITOR)
  {
  }

  function Typed(e: Editor, ch: u8): (f: Editor)
    requires Sound(e) && ch != 0 && |e.text| < SHELL_BUFFER_SIZE - 1
    ensures Sound(f)
  {
    e.(text := e.text[..e.cursor] + [ch] + e.text[e.cursor..], cursor := e.cursor + 1)
  }

  function Erased(e: Editor): (f: Editor)
    requires Sound(e)
    ensures Sound(f)
  {
    if e.cursor == 0 then e else e.(text := e.text[..e.cursor - 1] + e.text[e.cursor..], cursor := e.cursor - 1)
  }

  /** The line at the history position, if there is any history. */
  function Recalled(e: Editor): (f: Editor)
    requires Sound(e)
    ensures Sound(f)
  {
    if e.history[0] == [] then e.(histCurrent := 0)
    else e.(text := e.history[e.histCurrent], cursor := |e.history[e.histCurrent]|)
  }

  function Up(e: Editor): (f: Editor)
    requires Sound(e)
    ensures Sound(f)
  {
    var r := Recalled(e);
    if r.histCurrent + 1 < r.histCount then r.(histCurrent := r.histCurrent + 1) else r
  }

  function Down(e: Editor): (f: Editor)
    requires Sound(e)
    ensures Sound(f)
  {
    var r := Recalled(e);
    if r.histCurrent > 0 then r.(histCurrent := r.histCurrent - 1) else r
  }

  function Moved(e: Editor, ch: u8): (f: Editor)
    requires Sound(e)
    ensures Sound(f)
  {
    if ch == 0x41 then Up(e)
    else if ch == 0x42 then Down(e)
    else if ch == 0x44 && e.cursor > 0 then e.(cursor := e.cursor - 1)
    else if ch == 0x43 && e.cursor < |e.text| then e.(cursor := e.cursor + 1)
    else e
  }

  /** `StrCompare` over the length of `s`; a missing byte of `t` is its terminator. */
  function Compare(s: seq<u8>, t: seq<u8>): int {
    if |s| == 0 then 0
    else
      var b := if |t| == 0 then 0 else t[0];
      if s[0] != b then s[0] - b else Compare(s[1..], if |t| == 0 then [] else t[1..])
  }

  /** The comparison happens not to return the length of the line. */
  predicate Pushes(e: Editor)
    requires Sound(e)
  {
    Compare(e.text, e.history[0]) != |e.text|
  }

  function Remembered(e: Editor): (f: Editor)
    requires Sound(e) && e.text != []
    ensures Sound(f)
  {
    if !Pushes(e) then e
    else e.(history := [e.text, e.history[0], e.history[1]],
                histCount := if e.histCount < SHELL_HIST_MAX then e.histCount + 1 else e.histCount)
  }

  /** The editor after the end of a line, and the line that is handed to the command handler. */
  function Entered(e: Editor, ch: u8): (r: (Editor, Option<seq<u8>>))
    requires Sound(e)
    ensures Sound(r.0)
  {
    if e.endOfLine != 0 && e.endOfLine != ch then (e, None)
    else if e.text == [] then (e.(endOfLine := ch), None)
    else (Remembered(e).(text := [], cursor := 0, histCurrent := 0, endOfLine := ch), Some(e.text))
  }

  /** The key ends up as the end of a line or in the text. */
  predicate Enters(stat: Stat, ch: u8) {
    && ch != 0xFF && ch != KEY_ESC
    && match stat
       case Normal => ch != KEY_TAB && ch != KEY_DEL && ch != KEY_BACKSPACE
       case Special => ch != KEY_BRACKET
       case Function => false
  }

  /** The line ending is the one the shell has settled on, or the first. */
  predicate EndsLine(e: Editor, ch: u8) { (ch == KEY_CR || ch == KEY_LF) && (e.endOfLine == 0 || e.endOfLine == ch) }

  /** The keys of this model: no NUL, no completion, and room in the line for what enters it; a full line can be ended. */
  predicate Handled(e: Editor, ch: u8) {
    && ch != 0 && !(e.stat == Normal && ch == KEY_TAB)
    && (Enters(e.stat, ch) ==> |e.text| < SHELL_BUFFER_SIZE - 1 || EndsLine(e, ch))
  }

  function Pressed(e: Editor, ch: u8): (r: (Editor, Option<seq<u8>>))
    requires Sound(e) && Handled(e, ch)
    ensures Sound(r.0)
  {
    if ch == 0xFF then (e, None)
    else if ch == KEY_ESC then (e.(stat := Special), None)
    else if e.stat == Special && ch == KEY_BRACKET then (e.(stat := Function), None)
    else if e.stat == Function then (Moved(e.(stat := Normal), ch), None)
    else if e.stat == Normal && (ch == KEY_DEL || ch == KEY_BACKSPACE) then (Erased(e), None)
    else if ch == KEY_CR || ch == KEY_LF then Entered(e.(stat := Normal), ch)
    else (Typed(e.(stat := Normal), ch), None)
  }

  // ---- Runs of keys ----

  predicate HandledAll(e: Editor, keys: seq<u8>)
    requires Sound(e)
  {
    |keys| == 0 || (HandledAll(e, keys[..|keys| - 1]) && Handled(Run(e, keys[..|keys| - 1]).0, keys[|keys| - 1]))
  }

  /** The editor after a run of keys and the lines submitted by it, in order. */
  function Run(e: Editor, keys: seq<u8>): (r: (Editor, seq<seq<u8>>))
    requires Sound(e)
    ensures Sound(r.0)
  {
    if |keys| == 0 then (e, [])
    else
      var (f, lines) := Run(e, keys[..|keys| - 1]);
      var ch := keys[|keys| - 1];
      if !Handled(f, ch) then (f, lines)
      else
        var (g, line) := Pressed(f, ch);
        (g, if line.Some? then lines + [line.value] else lines)
  }

  predicate Plain(ch: u8) {
    ch != 0 && ch != 0xFF && ch != KEY_ESC && ch != KEY_TAB && ch != KEY_DEL && ch != KEY_BACKSPACE && ch != KEY_CR && ch != KEY_LF
  }

  lemma RunSnoc(e: Editor, keys: seq<u8>, ch: u8)
    requires Sound(e) && HandledAll(e, keys) && Handled(Run(e, keys).0, ch)
    ensures HandledAll(e, keys + [ch])
    ensures var p := Pressed(Run(e, keys).0, ch);
            Run(e, keys + [ch]) == (p.0, if p.1.Some? then Run(e, keys).1 + [p.1.value] else Run(e, keys).1)
  {
    hide Pressed;
    hide Handled;
    hide Sound;
    assert (keys + [ch])[..|keys + [ch]| - 1] == keys;
  }

  lemma PlainKeyIsTyped(e: Editor, ch: u8)
    requires Sound(e) && e.stat == Normal && Plain(ch) && |e.text| < SHELL_BUFFER_SIZE - 1
    ensures Handled(e, ch) && Pressed(e, ch) == (Typed(e, ch), None)
  {
  }

  /** The editor with `word` inserted at the cursor. */
  function WithWord(e: Editor, word: seq<u8>): Editor
    requires Sound(e)
  {
    e.(text := e.text[..e.cursor] + word + e.text[e.cursor..], cursor := e.cursor + |word|)
  }

  lemma WithWordSnoc(e: Editor, word: seq<u8>, ch: u8)
    requires Sound(e) && ch != 0 && |e.text| + |word| < SHELL_BUFFER_SIZE - 1 && Sound(WithWord(e, word))
    ensures Typed(WithWord(e, word), ch) == WithWord(e, word + [ch])
  {
    assert e.cursor <= |e.text|;
    hide Sound;
    var t := WithWord(e, word).text;
    var c := e.cursor + |word|;
    assert t[..c] == e.text[..e.cursor] + word && t[c..] == e.text[e.cursor..];
    assert e.text[..e.cursor] + word + [ch] == e.text[..e.cursor] + (word + [ch]);
  }

  /** Plain keys go into the text at the cursor, in order. */
  lemma {:induction false} WordIsInserted(e: Editor, word: seq<u8>)
    requires Sound(e) && e.stat == Normal && |e.text| + |word| < SHELL_BUFFER_SIZE
    requires forall i :: 0 <= i < |word| ==> Plain(word[i])
    ensures HandledAll(e, word) && Run(e, word) == (WithWord(e, word), [])
    decreases |word|, 0
  {
    if |word| == 0 {
      assert WithWord(e, word) == e by {
        assert e.text == e.text[..e.cursor] + word + e.text[e.cursor..];
      }
    } else {
      WordGrows(e, word[..|word| - 1], word[|word| - 1]);
      assert word == word[..|word| - 1] + [word[|word| - 1]];
    }
  }

  lemma {:induction false} WordGrows(e: Editor, word: seq<u8>, ch: u8)
    requires Sound(e) && e.stat == Normal && |e.text| + |word| < SHELL_BUFFER_SIZE - 1
    requires (forall i :: 0 <= i < |word| ==> Plain(word[i])) && Plain(ch)
    ensures HandledAll(e, word + [ch]) && Run(e, word + [ch]) == (WithWord(e, word + [ch]), [])
    decreases |word|, 1
  {
    WordIsInserted(e, word);
    hide Run;
    hide HandledAll;
    hide Pressed;
    hide Handled;
    hide Sound;
    PlainKeyIsTyped(WithWord(e, word), ch);
    RunSnoc(e, word, ch);
    WithWordSnoc(e, word, ch);
  }

  predicate Erases(ch: u8) { ch == 0x08 || ch == 0x7F }

  /** Typing a word and erasing it, one backspace or delete for each key, gives the editor back. */
  lemma {:induction false} WordIsErased(e: Editor, word: seq<u8>, erasures: seq<u8>)
    requires Sound(e) && e.stat == Normal && |e.text| + |word| < SHELL_BUFFER_SIZE
    requires forall i :: 0 <= i < |word| ==> Plain(word[i])
    requires |erasures| == |word| && forall i :: 0 <= i < |word| ==> Erases(erasures[i])
    ensures Run(Run(e, word).0, erasures) == (e, [])
  {
    WordIsInserted(e, word);
    EraseBack(e, word, erasures);
    WordIsInserted(e, []);
    assert word[..0] == [];
  }

  lemma {:induction false} EraseBack(e: Editor, word: seq<u8>, erasures: seq<u8>)
    requires Sound(e) && e.stat == Normal && |e.text| + |word| < SHELL_BUFFER_SIZE
    requires forall i :: 0 <= i < |word| ==> Plain(word[i])
    requires |erasures| <= |word| && forall i :: 0 <= i < |erasures| ==> Erases(erasures[i])
    ensures Sound(WithWord(e, word)) && HandledAll(WithWord(e, word), erasures)
    ensures Run(WithWord(e, word), erasures) == (WithWord(e, word[..|word| - |erasures|]), [])
    decreases |erasures|, 0
  {
    WordIsInserted(e, word);
    if |erasures| == 0 {
      assert word[..|word|] == word;
    } else {
      EraseMore(e, word, erasures[..|erasures| - 1], erasures[|erasures| - 1]);
      assert erasures == erasures[..|erasures| - 1] + [erasures[|erasures| - 1]];
    }
  }

  lemma {:induction false} EraseMore(e: Editor, word: seq<u8>, keys: seq<u8>, ch: u8)
    requires Sound(e) && e.stat == Normal && |e.text| + |word| < SHELL_BUFFER_SIZE
    requires forall i :: 0 <= i < |word| ==> Plain(word[i])
    requires |keys| < |word| && Erases(ch) && forall i :: 0 <= i < |keys| ==> Erases(keys[i])
    ensures Sound(WithWord(e, word)) && HandledAll(WithWord(e, word), keys + [ch])
    ensures Run(WithWord(e, word), keys + [ch]) == (WithWord(e, word[..|word| - |keys| - 1]), [])
    decreases |keys|, 1
  {
    EraseBack(e, word, keys);
    hide Run;
    hide HandledAll;
    hide Pressed;
    hide Handled;
    var rest := word[..|word| - |keys|];
    BackspaceErases(WithWord(e, rest), ch);
    WithWordErased(e, rest);
    assert rest[..|rest| - 1] == word[..|word| - |keys| - 1];
    hide Sound;
    hide WithWord;
    RunSnoc(WithWord(e, word), keys, ch);
  }

  lemma BackspaceErases(e: Editor, ch: u8)
    requires Sound(e) && e.stat == Normal && Erases(ch)
    ensures Handled(e, ch) && Pressed(e, ch) == (Erased(e), None)
  {
  }

  lemma WithWordErased(e: Editor, word: seq<u8>)
    requires Sound(e) && |word| > 0 && Sound(WithWord(e, word))
    ensures Erased(WithWord(e, word)) == WithWord(e, word[..|word| - 1])
  {
    assert e.cursor <= |e.text|;
    hide Sound;
    var t, c := WithWord(e, word).text, e.cursor + |word|;
    assert t[..c - 1] == e.text[..e.cursor] + word[..|word| - 1] && t[c..] == e.text[e.cursor..];
  }

  /** The end of a line hands over the text, and the up key then brings back the newest line of the history. */
  lemma EnterSubmits(e: Editor)
    requires Sound(e) && e.stat == Normal && e.text != [] && (e.endOfLine == 0 || e.endOfLine == KEY_CR)
    ensures Handled(e, KEY_CR) && Pressed(e, KEY_CR).1 == Some(e.text)
    ensures var f := Pressed(e, KEY_CR).0;
            && f.text == [] && f.cursor == 0 && f.history == Remembered(e).history
            && (Pushes(e) ==> f.history[0] == e.text && Up(f).text == e.text)
            && (!Pushes(e) ==> f.history == e.history)
  {
  }

  /** A typed line is submitted as it was typed; if it is remembered, the up key brings it back. */
  lemma {:induction false} LineIsSubmitted(e: Editor, word: seq<u8>)
    requires Sound(e) && e.stat == Normal && e.text == [] && 0 < |word| < SHELL_BUFFER_SIZE
    requires (forall i :: 0 <= i < |word| ==> Plain(word[i])) && (e.endOfLine == 0 || e.endOfLine == KEY_CR)
    ensures HandledAll(e, word + [KEY_CR]) && Run(e, word + [KEY_CR]).1 == [word]
    ensures var f := Run(e, word + [KEY_CR]).0;
            && f.text == [] && f.cursor == 0
            && if Compare(word, e.history[0]) != |word| then f.history[0] == word && Up(f).text == word else f.history == e.history
  {
    WordIsInserted(e, word);
    hide Run;
    hide HandledAll;
    hide Pressed;
    hide Up;
    hide Remembered;
    hide Compare;
    var typed := WithWord(e, word);
    assert typed.text == word;
    EnterSubmits(typed);
    RunSnoc(e, word, KEY_CR);
  }

  // ---- When a line is remembered ----

  /** The byte at `i`, or the zero behind the text. */
  function ByteOf(t: seq<u8>, i: nat): u8 { if i < |t| then t[i] else 0 }

  /** The first position of `s` at which `t`, padded with zeros, holds another byte, or the length of `s`. */
  function FirstDifference(s: seq<u8>, t: seq<u8>): (i: nat)
    ensures i <= |s| && (forall j :: 0 <= j < i ==> s[j] == ByteOf(t, j))
    ensures i < |s| ==> s[i] != ByteOf(t, i)
  {
    if |s| == 0 || s[0] != ByteOf(t, 0) then 0
    else
      var u := if |t| == 0 then [] else t[1..];
      assert forall j :: 0 <= j < |s| - 1 ==> s[1..][j] == s[j + 1] && ByteOf(u, j) == ByteOf(t, j + 1);
      1 + FirstDifference(s[1..], u)
  }

  /** The comparison returns the difference of the first bytes that differ. */
  lemma {:induction false} CompareIsFirstDifference(s: seq<u8>, t: seq<u8>)
    ensures var i := FirstDifference(s, t);
            Compare(s, t) == if i < |s| then s[i] - ByteOf(t, i) else 0
  {
    if |s| > 0 && s[0] == ByteOf(t, 0) {
      CompareIsFirstDifference(s[1..], if |t| == 0 then [] else t[1..]);
    }
  }

  /**
   * The history is meant to take a line only if it differs from the last one. A line is left out exactly when, at the
   * first byte in which it differs from the last line, its byte is greater by the length of the line; an equal line is
   * always taken again. So the history does as meant for the lines that differ, except those.
   */
  lemma RememberedAsMeantExactlyWhen(e: Editor)
    requires Sound(e) && e.text != []
    ensures var last, i := e.history[0], FirstDifference(e.text, e.history[0]);
            && (!Pushes(e) <==> i < |e.text| && e.text[i] - ByteOf(last, i) == |e.text|)
            && (e.text == last ==> Pushes(e))
            && ((Pushes(e) <==> e.text != last) <==>
                e.text != last && (i == |e.text| || e.text[i] - ByteOf(last, i) != |e.text|))
  {
    CompareIsFirstDifference(e.text, e.history[0]);
  }

  /** With "a" as the last line, "b" is not remembered, and "a" is remembered again. */
  lemma HistoryMistakes()
    ensures var e := Editor([0x62], 1, Normal, [[0x61], [], []], 1, 0, KEY_CR);
            Sound(e) && e.text != e.history[0] && Remembered(e).history == [[0x61], [], []]
    ensures var e := Editor([0x61], 1, Normal, [[0x61], [], []], 1, 0, KEY_CR);
            Sound(e) && e.text == e.history[0] && Remembered(e).history == [[0x61], [0x61], []]
  {
    assert Compare([0x62], [0x61]) == 1;
    CompareIsFirstDifference([0x61], [0x61]);
  }
}

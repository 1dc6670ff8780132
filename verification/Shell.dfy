/** The shell context of `shell.c` with its buffers, edited in place as module LineEditor says. */
module Shell {
  import opened Bytes
  import opened Options
  import opened LineEditor

  /** The buffer holds the text and is zero behind it. */
  predicate Holds(buffer: seq<u8>, t: seq<u8>) {
    && |buffer| == SHELL_BUFFER_SIZE && |t| < SHELL_BUFFER_SIZE && (forall i :: 0 <= i < |t| ==> buffer[i] == t[i])
    && forall i :: |t| <= i < SHELL_BUFFER_SIZE ==> buffer[i] == 0
  }

  method StrLen(str: array<u8>) returns (i: nat)
    requires 0 in str[..]
    ensures i < str.Length && str[i] == 0 && 0 !in str[..i]
  {
    i := 0;
    while str[i] != 0
      invariant i < str.Length && 0 !in str[..i] && 0 in str[i..]
      decreases str.Length - i
    {
      i := i + 1;
    }
  }

  method StrCopy(dest: array<u8>, src: array<u8>, count: nat)
    requires count <= dest.Length && count <= src.Length && dest != src
    modifies dest
    ensures forall i :: 0 <= i < dest.Length ==> dest[i] == if i < count then src[i] else old(dest[i])
  {
    var i := 0;
    while i < count
      invariant i <= count
      invariant forall j :: 0 <= j < dest.Length ==> dest[j] == if j < i then src[j] else old(dest[j])
    {
      dest[i] := src[i];
      i := i + 1;
    }
  }

  /** `t` is the text of a string that ends at its first NUL. */
  predicate IsText(a: seq<u8>, t: seq<u8>) {
    |t| < |a| && 0 !in t && a[|t|] == 0 && forall i :: 0 <= i < |t| ==> a[i] == t[i]
  }

  method StrCompare(str1: array<u8>, str2: array<u8>, count: nat, ghost t: seq<u8>) returns (r: int)
    requires count <= str1.Length && 0 !in str1[..count] && IsText(str2[..], t)
    ensures r == Compare(str1[..count], t)
  {
    var i := 0;
    while i < count
      invariant i <= count && i <= |t|
      invariant Compare(str1[i..count], t[i..]) == Compare(str1[..count], t)
    {
      assert str1[i..count][1..] == str1[i + 1..count] && str1[..count][i] == str1[i];
      assert str2[i] == if i < |t| then t[i] else 0;
      if str1[i] != str2[i] {
        return str1[i] as int - str2[i] as int;
      }
      i := i + 1;
    }
    r := 0;
  }

  /** `memset(a, 0, count)`. */
  method Clear(a: array<u8>, count: nat)
    requires count <= a.Length
    modifies a
    ensures forall i :: 0 <= i < a.Length ==> a[i] == if i < count then 0 else old(a[i])
  {
    forall i | 0 <= i < count {
      a[i] := 0;
    }
  }

  /** `memmove` inside one buffer. */
  method Move(a: array<u8>, dest: nat, src: nat, count: nat)
    requires dest + count <= a.Length && src + count <= a.Length
    modifies a
    ensures forall i :: 0 <= i < a.Length ==> a[i] == if dest <= i < dest + count then old(a[src + i - dest]) else old(a[i])
  {
    forall i | dest <= i < dest + count {
      a[i] := a[src + i - dest];
    }
  }

  method NewBuffer() returns (a: array<u8>)
    ensures fresh(a) && Holds(a[..], [])
  {
    a := new u8[SHELL_BUFFER_SIZE](i => 0);
  }

  /** A whole line from one buffer to another. */
  method Copy(dest: array<u8>, src: array<u8>, ghost t: seq<u8>)
    requires dest != src && dest.Length == SHELL_BUFFER_SIZE && Holds(src[..], t) && 0 !in t
    modifies dest
    ensures Holds(dest[..], t)
  {
    Clear(dest, SHELL_BUFFER_SIZE);
    assert src[|t|] == 0;
    var n := StrLen(src);
    assert n == |t|;
    StrCopy(dest, src, n);
  }

  /** One byte out of the text, with `l` and `c` already moved back. */
  method CloseGap(line: array<u8>, l: nat, c: nat, ghost t: seq<u8>)
    requires Holds(line[..], t) && c <= l && |t| == l + 1
    modifies line
    ensures Holds(line[..], t[..c] + t[c + 1..])
  {
    if l > c {
      Move(line, c, c + 1, l - c);
      line[l] := 0;
    } else {
      line[l] := 0;
    }
  }

  /** One byte into the text. */
  method OpenGap(line: array<u8>, l: nat, c: nat, ch: u8, ghost t: seq<u8>)
    requires Holds(line[..], t) && c <= l == |t| < SHELL_BUFFER_SIZE - 1
    modifies line
    ensures Holds(line[..], t[..c] + [ch] + t[c..])
  {
    if c < l {
      Move(line, c + 1, c, l - c);
      line[c] := ch;
    } else {
      line[l] := ch;
    }
  }

  /** The line cleared as far as it goes, and the text of the other buffer copied in. */
  method Replace(line: array<u8>, ghost t: seq<u8>, from: array<u8>, ghost u: seq<u8>) returns (n: nat)
    requires line != from && Holds(line[..], t) && Holds(from[..], u) && 0 !in t && 0 !in u
    modifies line
    ensures n == |u| && Holds(line[..], u)
  {
    assert line[|t|] == 0 && from[|u|] == 0;
    var tmp := StrLen(line);
    assert tmp == |t|;
    if tmp > 0 {
      Clear(line, tmp);
    }
    n := StrLen(from);
    assert n == |u|;
    StrCopy(line, from, n);
  }

  class Context {
    const line: array<u8>
    const hist_buf: seq<array<u8>>
    var l_pos: u8
    var c_pos: u8
    var stat: Stat
    var hist_current: u16
    var hist_count: u16
    var endoflinechar: u8
    ghost var text: seq<u8>
    ghost var history: seq<seq<u8>>

    ghost predicate Buffers() {
      && line.Length == SHELL_BUFFER_SIZE && |hist_buf| == SHELL_HIST_MAX
      && (forall i :: 0 <= i < SHELL_HIST_MAX ==> hist_buf[i].Length == SHELL_BUFFER_SIZE && hist_buf[i] != line)
      && forall i, j :: 0 <= i < j < SHELL_HIST_MAX ==> hist_buf[i] != hist_buf[j]
    }

    ghost predicate Valid()
      reads this, line, hist_buf
    {
      Intact() && l_pos == |text|
    }

    /** All but the length, which a key into a full line resets. */
    ghost predicate Intact()
      reads this, line, hist_buf
    {
      && Buffers() && Holds(line[..], text) && |history| == SHELL_HIST_MAX
      && Kept(history) && Sound(Abs())
    }

    ghost predicate Kept(lines: seq<seq<u8>>)
      requires Buffers() && |lines| == SHELL_HIST_MAX
      reads hist_buf
    {
      forall i :: 0 <= i < SHELL_HIST_MAX ==> Holds(hist_buf[i][..], lines[i])
    }

    ghost function Abs(): Editor
      reads this
    {
      Editor(text, c_pos, stat, history, hist_count, hist_current, endoflinechar)
    }

    constructor ()
      ensures Valid() && fresh(line) && fresh(hist_buf) && Abs() == FRESH_EDITOR
    {
      var l := NewBuffer();
      var a := NewBuffer();
      var b := NewBuffer();
      var c := NewBuffer();
      line, hist_buf := l, [a, b, c];
      l_pos, c_pos, stat, hist_current, hist_count, endoflinechar := 0, 0, Normal, 0, 0, 0;
      text, history := [], [[], [], []];
      new;
      FreshIsSound();
      hide Sound, Holds;
      assert Buffers();
      assert Kept(history) by {
        assert hist_buf[0] == a && hist_buf[1] == b && hist_buf[2] == c;
      }
      hide Buffers, Kept;
    }

    method Backspace()
      requires Valid()
      modifies this, line
      ensures Valid() && Abs() == Erased(old(Abs()))
    {
      if c_pos == 0 {
        return;
      }
      l_pos := l_pos - 1;
      c_pos := c_pos - 1;
      CloseGap(line, l_pos, c_pos, text);
      text := text[..c_pos] + text[c_pos + 1..];
    }

    method Insert(ch: u8)
      requires Valid() && ch != 0 && |text| < SHELL_BUFFER_SIZE - 1
      modifies this, line
      ensures Valid() && Abs() == Typed(old(Abs()), ch)
    {
      OpenGap(line, l_pos, c_pos, ch, text);
      text := text[..c_pos] + [ch] + text[c_pos..];
      l_pos := l_pos + 1;
      c_pos := c_pos + 1;
    }

    method GetHistoryCommand(position: u8)
      requires Valid() && position == hist_current
      modifies this, line
      ensures Valid() && Abs() == Recalled(old(Abs()))
    {
      if hist_buf[0][0] == 0 {
        hist_current := 0;
        return;
      }
      var hist_pos := if position >= SHELL_HIST_MAX then SHELL_HIST_MAX - 1 else position;
      var n := Replace(line, text, hist_buf[hist_pos], history[hist_pos]);
      l_pos := n;
      c_pos := l_pos;
      text := history[hist_pos];
    }

    method FunctionKey(ch: u8)
      requires Valid()
      modifies this, line
      ensures Valid() && Abs() == Moved(old(Abs()), ch)
    {
      hide Holds;
      if ch == 0x41 {
        GetHistoryCommand(hist_current);
        if hist_current as int < hist_count - 1 {
          hist_current := hist_current + 1;
        }
      } else if ch == 0x42 {
        GetHistoryCommand(hist_current);
        if hist_current > 0 {
          hist_current := hist_current - 1;
        }
      } else if ch == 0x44 {
        if c_pos > 0 {
          c_pos := c_pos - 1;
        }
      } else if ch == 0x43 {
        if c_pos < l_pos {
          c_pos := c_pos + 1;
        }
      }
    }

    /** The loop that moves the history down by one line. */
    method ShiftHistory()
      requires Buffers() && |history| == SHELL_HIST_MAX && Kept(history)
      requires forall j :: 0 <= j < SHELL_HIST_MAX ==> 0 !in history[j]
      modifies this`history, hist_buf
      ensures history == [old(history[0]), old(history[0]), old(history[1])] && Kept(history)
    {
      var i := SHELL_HIST_MAX - 1;
      while i > 0
        invariant 0 <= i < SHELL_HIST_MAX == |history| && Kept(history)
        invariant forall j :: 0 <= j < SHELL_HIST_MAX ==> 0 !in history[j]
        invariant forall j :: 0 <= j < SHELL_HIST_MAX ==> history[j] == old(history)[if j <= i then j else j - 1]
      {
        Copy(hist_buf[i], hist_buf[i - 1], history[i - 1]);
        history := history[i := history[i - 1]];
        i := i - 1;
      }
    }

    method PushHistory()
      requires Intact() && text != []
      modifies this`hist_count, this`history, hist_buf
      ensures Intact()
      ensures Abs() == old(Abs()).(history := [text, old(history[0]), old(history[1])],
                                   histCount := if old(hist_count) < SHELL_HIST_MAX then old(hist_count) + 1 else old(hist_count))
    {
      ShiftHistory();
      Copy(hist_buf[0], line, text);
      history := history[0 := text];
      if hist_count < SHELL_HIST_MAX {
        hist_count := hist_count + 1;
      }
    }

    /** The line is compared with the last one and pushed. */
    method Remember(n: nat)
      requires Intact() && text != [] && n == |text|
      modifies this`hist_count, this`history, hist_buf
      ensures Intact() && Abs() == Remembered(old(Abs()))
    {
      assert 0 !in history[0] && 0 !in text;
      assert line[..n] == text;
      hide Compare;
      hide Sound;
      var difference := StrCompare(line, hist_buf[0], n, history[0]);
      if n != difference {
        PushHistory();
      }
    }

    /** The line as it is handed over, remembered and cleared. */
    method Submit(n: nat) returns (submitted: seq<u8>)
      requires Intact() && text != [] && n == |text|
      modifies this, line, hist_buf
      ensures Valid() && submitted == old(text)
      ensures Abs() == Remembered(old(Abs())).(text := [], cursor := 0, histCurrent := 0)
    {
      submitted := line[..n];
      assert submitted == text;
      Remember(n);
      hide Remembered, Compare;
      ResetLine();
    }

    /** An empty line, and the history from its start. */
    method ResetLine()
      requires Intact()
      modifies this`l_pos, this`c_pos, this`hist_current, this`text, line
      ensures Valid() && Abs() == old(Abs()).(text := [], cursor := 0, histCurrent := 0)
    {
      hide Holds;
      c_pos, l_pos, hist_current := 0, 0, 0;
      ClearLine();
      text := [];
    }

    method ClearLine()
      requires Buffers() && |history| == SHELL_HIST_MAX && Kept(history)
      modifies line
      ensures Holds(line[..], []) && Kept(history)
    {
      Clear(line, SHELL_BUFFER_SIZE);
    }

    method EndOfLine(ch: u8) returns (submitted: Option<seq<u8>>)
      requires Intact() && (l_pos == |text| || ((endoflinechar == 0 || endoflinechar == ch) && text != []))
      modifies this, line, hist_buf
      ensures Valid() && (Abs(), submitted) == Entered(old(Abs()), ch)
    {
      if endoflinechar != 0 && endoflinechar != ch {
        return None;
      }
      endoflinechar := ch;
      assert line[|text|] == 0;
      var n := StrLen(line);
      assert n == |text|;
      if n == 0 {
        return None;
      }
      hide Compare;
      var s := Submit(n);
      submitted := Some(s);
    }

    /** One pass through the loop of `SHELL_Main`; the submitted line goes to the command handler. */
    method HandleKey(ch: u8) returns (submitted: Option<seq<u8>>)
      requires Valid() && Handled(Abs(), ch)
      modifies this, line, hist_buf
      ensures Valid() && (Abs(), submitted) == Pressed(old(Abs()), ch)
    {
      hide Typed;
      hide Entered;
      hide Erased;
      hide Moved;
      submitted := None;
      if ch == 0xFF {
        return;
      }
      if ch == KEY_ESC {
        stat := Special;
        return;
      } else if stat == Special {
        if ch == KEY_BRACKET {
          stat := Function;
          return;
        }
        stat := Normal;
      } else if stat == Function {
        stat := Normal;
        FunctionKey(ch);
        return;
      } else if ch == KEY_DEL || ch == KEY_BACKSPACE {
        Backspace();
        return;
      }
      if l_pos >= SHELL_BUFFER_SIZE - 1 {
        l_pos := 0;
      }
      if ch == KEY_CR || ch == KEY_LF {
        submitted := EndOfLine(ch);
      } else {
        Insert(ch);
      }
    }
  }
}

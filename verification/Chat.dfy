/** The chat client `lab2/lab2.c`: the window of the last chat lines, and the input line. */
module Chat {
  const SCREEN_COLS := 64
  const MAX_CHAT_LINES := 20
  const INPUT_MAX_LEN := 126

  // ----- Wrapping -----

  /** The lines completed so far and the chunk that is still open. */
  datatype Wrapping = Wrapping(lines: seq<string>, cur: string)

  function Feed(w: Wrapping, c: char): (r: Wrapping)
    requires |w.cur| < SCREEN_COLS
    ensures |r.cur| < SCREEN_COLS && w.lines <= r.lines
  {
    if c == '\r' then w
    else if c == '\n' then Wrapping(w.lines + [w.cur], [])
    else if |w.cur| + 1 >= SCREEN_COLS then Wrapping(w.lines + [w.cur + [c]], [])
    else Wrapping(w.lines, w.cur + [c])
  }

  function FeedAll(s: string): (r: Wrapping)
    ensures |r.cur| < SCREEN_COLS
  {
    if s == [] then Wrapping([], []) else Feed(FeedAll(s[..|s| - 1]), s[|s| - 1])
  }

  /** The lines a message adds: a chunk left open at its end is a line, too. */
  function Wrapped(s: string): seq<string> {
    var w := FeedAll(s);
    if w.cur == [] then w.lines else w.lines + [w.cur]
  }

  function Joined(lines: seq<string>): string {
    if lines == [] then [] else Joined(lines[..|lines| - 1]) + lines[|lines| - 1]
  }

  function Printed(s: string): string {
    if s == [] then []
    else Printed(s[..|s| - 1]) + (if LineEnd(s[|s| - 1]) then [] else [s[|s| - 1]])
  }

  predicate Narrow(lines: seq<string>) { forall i | 0 <= i < |lines| :: |lines[i]| <= SCREEN_COLS }

  lemma JoinedLast(lines: seq<string>, line: string)
    ensures Joined(lines + [line]) == Joined(lines) + line
  {
    assert (lines + [line])[..|lines|] == lines;
  }

  predicate LineEnd(c: char) { c == '\r' || c == '\n' }

  lemma FeedOne(w: Wrapping, c: char, printed: string)
    requires |w.cur| < SCREEN_COLS && Narrow(w.lines) && Joined(w.lines) + w.cur == printed
    ensures Narrow(Feed(w, c).lines)
    ensures Joined(Feed(w, c).lines) + Feed(w, c).cur == printed + (if LineEnd(c) then [] else [c])
  {
    var j := Joined(w.lines);
    assert j + (w.cur + [c]) == printed + [c];
    if c == '\r' {
      assert printed + [] == printed;
    } else if c == '\n' {
      JoinedLast(w.lines, w.cur);
      assert printed + [] == printed;
    } else if |w.cur| + 1 >= SCREEN_COLS {
      JoinedLast(w.lines, w.cur + [c]);
      assert (printed + [c]) + [] == printed + [c];
    }
  }

  lemma {:induction false} FeedKeeps(s: string)
    ensures Joined(FeedAll(s).lines) + FeedAll(s).cur == Printed(s) && Narrow(FeedAll(s).lines)
    decreases |s|
  {
    if s != [] {
      FeedKeeps(s[..|s| - 1]);
      FeedOne(FeedAll(s[..|s| - 1]), s[|s| - 1], Printed(s[..|s| - 1]));
    }
  }

  /** Wrapping loses nothing but line ends, and every line fits the screen. */
  lemma WrappedKeeps(s: string)
    ensures Joined(Wrapped(s)) == Printed(s) && Narrow(Wrapped(s))
  {
    FeedKeeps(s);
    JoinedLast(FeedAll(s).lines, FeedAll(s).cur);
  }

  // ----- Where the breaks are -----

  /** The message without carriage returns. */
  function WithoutReturns(s: string): string {
    if s == [] then [] else (if s[0] == '\r' then [] else [s[0]]) + WithoutReturns(s[1..])
  }

  /** A line in rows of exactly 64 characters, and what remains of it, be it nothing. */
  function Rows(line: string): (rows: seq<string>)
    ensures rows != [] && |rows[|rows| - 1]| < SCREEN_COLS
    ensures forall i | 0 <= i < |rows| - 1 :: |rows[i]| == SCREEN_COLS
  {
    if |line| < SCREEN_COLS then [line] else [line[..SCREEN_COLS]] + Rows(line[SCREEN_COLS..])
  }

  /** Where the first line ends: at a newline, or with the text. */
  function LineLength(t: string): (n: nat)
    ensures n <= |t| && (n < |t| ==> t[n] == '\n')
  {
    if t == [] || t[0] == '\n' then 0 else 1 + LineLength(t[1..])
  }

  /** All rows: those of each line that a newline ends, and those of the last line, the remainder
      only if there is one. A line of 64 characters and its newline thus add an empty row. */
  function AllRows(t: string): seq<string> {
    var n := LineLength(t);
    if n < |t| then Rows(t[..n]) + AllRows(t[n + 1..])
    else
      var rows := Rows(t);
      if rows[|rows| - 1] == [] then rows[..|rows| - 1] else rows
  }

  function FeedFrom(w: Wrapping, s: string): (r: Wrapping)
    requires |w.cur| < SCREEN_COLS
    ensures |r.cur| < SCREEN_COLS
    decreases |s|
  {
    if s == [] then w else FeedFrom(Feed(w, s[0]), s[1..])
  }

  lemma {:induction false} FeedFromLast(w: Wrapping, s: string, c: char)
    requires |w.cur| < SCREEN_COLS
    ensures FeedFrom(w, s + [c]) == Feed(FeedFrom(w, s), c)
    decreases |s|
  {
    if s == [] {
      assert (s + [c])[1..] == [];
    } else {
      assert (s + [c])[1..] == s[1..] + [c];
      FeedFromLast(Feed(w, s[0]), s[1..], c);
    }
  }

  lemma {:induction false} FedForward(s: string)
    ensures FeedAll(s) == FeedFrom(Wrapping([], []), s)
    decreases |s|
  {
    if s != [] {
      FedForward(s[..|s| - 1]);
      FeedFromLast(Wrapping([], []), s[..|s| - 1], s[|s| - 1]);
      assert s[..|s| - 1] + [s[|s| - 1]] == s;
    }
  }

  predicate OneLine(s: string) { '\n' !in s }

  lemma {:induction false} LineLengthAppend(c: string, t: string)
    requires OneLine(c)
    ensures LineLength(c + t) == |c| + LineLength(t)
    decreases |c|
  {
    if c == [] {
      assert c + t == t;
    } else {
      assert (c + t)[1..] == c[1..] + t;
      LineLengthAppend(c[1..], t);
    }
  }

  /** A full row at the start of a text. */
  lemma FullRow(c: string, t: string)
    requires OneLine(c) && |c| == SCREEN_COLS
    ensures AllRows(c + t) == [c] + AllRows(t)
  {
    LineLengthAppend(c, t);
    var n := LineLength(t);
    assert (c + t)[SCREEN_COLS..] == t && (c + t)[..SCREEN_COLS] == c;
    if n < |t| {
      var line := (c + t)[..|c| + n];
      assert line == c + t[..n];
      assert line[..SCREEN_COLS] == c && line[SCREEN_COLS..] == t[..n];
      assert (c + t)[|c| + n + 1..] == t[n + 1..];
      assert [c] + Rows(t[..n]) + AllRows(t[n + 1..]) == [c] + (Rows(t[..n]) + AllRows(t[n + 1..]));
    } else {
      var rows := Rows(t);
      assert ([c] + rows)[..|rows|] == [c] + rows[..|rows| - 1];
    }
  }

  /** A line ended before the screen is full. */
  lemma EndedLine(c: string, t: string)
    requires OneLine(c) && |c| < SCREEN_COLS
    ensures AllRows(c + (['\n'] + t)) == [c] + AllRows(t)
  {
    LineLengthAppend(c, ['\n'] + t);
    assert (c + (['\n'] + t))[..|c|] == c && (c + (['\n'] + t))[|c| + 1..] == t;
  }

  lemma LastLine(c: string)
    requires OneLine(c) && |c| < SCREEN_COLS
    ensures AllRows(c) == if c == [] then [] else [c]
  {
    LineLengthAppend(c, []);
    assert c + [] == c;
  }

  function Closed(w: Wrapping): seq<string> { if w.cur == [] then w.lines else w.lines + [w.cur] }

  lemma {:induction false} FedRows(w: Wrapping, s: string)
    requires |w.cur| < SCREEN_COLS && OneLine(w.cur)
    ensures Closed(FeedFrom(w, s)) == w.lines + AllRows(w.cur + WithoutReturns(s))
    decreases |s|
  {
    if s == [] {
      assert w.cur + [] == w.cur;
      LastLine(w.cur);
    } else {
      var c, rest := s[0], WithoutReturns(s[1..]);
      FedRows(Feed(w, c), s[1..]);
      NextRows(w, c, rest);
    }
  }

  lemma NextRows(w: Wrapping, c: char, rest: string)
    requires |w.cur| < SCREEN_COLS && OneLine(w.cur)
    ensures OneLine(Feed(w, c).cur)
    ensures Feed(w, c).lines + AllRows(Feed(w, c).cur + rest)
         == w.lines + AllRows(w.cur + ((if c == '\r' then [] else [c]) + rest))
  {
    if c == '\r' {
      assert [] + rest == rest;
    } else if c == '\n' {
      assert [] + rest == rest;
      EndedLine(w.cur, rest);
      assert w.lines + [w.cur] + AllRows(rest) == w.lines + ([w.cur] + AllRows(rest));
    } else {
      var cur := w.cur + [c];
      assert w.cur + ([c] + rest) == cur + rest;
      if |cur| >= SCREEN_COLS {
        FullRow(cur, rest);
        assert [] + rest == rest;
        assert w.lines + [cur] + AllRows(rest) == w.lines + ([cur] + AllRows(rest));
      }
    }
  }

  /** A message is broken at its newlines and after every 64 characters of a line, nowhere else. */
  lemma WrappedBreaks(s: string)
    ensures Wrapped(s) == AllRows(WithoutReturns(s))
  {
    FedForward(s);
    FedRows(Wrapping([], []), s);
    assert [] + WithoutReturns(s) == WithoutReturns(s);
    assert [] + AllRows(WithoutReturns(s)) == AllRows(WithoutReturns(s));
  }

  // ----- The window -----

  /** The last lines of an unbounded log. */
  function Tail(log: seq<string>): (w: seq<string>)
    ensures |w| == if |log| < MAX_CHAT_LINES then |log| else MAX_CHAT_LINES
  {
    if |log| <= MAX_CHAT_LINES then log else log[|log| - MAX_CHAT_LINES..]
  }

  class Window {
    const chatLines: array<string>
    var chatLineCount: nat
    /** All lines ever printed. */
    ghost var log: seq<string>

    ghost predicate Valid()
      reads this, chatLines
    {
      chatLines.Length == MAX_CHAT_LINES && chatLineCount <= MAX_CHAT_LINES && chatLines[..chatLineCount] == Tail(log)
    }

    constructor ()
      ensures Valid() && fresh(chatLines) && log == []
    {
      chatLines := new string[MAX_CHAT_LINES](_ => "");
      chatLineCount, log := 0, [];
    }

    /** One line more: at the end while there is room, else everything scrolls up. */
    method Flush(cur: string)
      requires Valid()
      modifies this, chatLines
      ensures Valid() && log == old(log) + [cur]
    {
      ghost var was := chatLines[..];
      if chatLineCount < MAX_CHAT_LINES {
        chatLines[chatLineCount] := cur;
        chatLineCount := chatLineCount + 1;
        assert chatLines[..chatLineCount] == was[..chatLineCount - 1] + [cur];
      } else {
        forall i | 0 <= i < MAX_CHAT_LINES - 1 { chatLines[i] := chatLines[i + 1]; }
        chatLines[MAX_CHAT_LINES - 1] := cur;
        assert chatLines[..MAX_CHAT_LINES] == was[1..] + [cur];
      }
      log := log + [cur];
    }

    /** `chat_print_line`. */
    method ChatPrintLine(s: string)
      requires Valid()
      modifies this, chatLines
      ensures Valid() && log == old(log) + Wrapped(s)
    {
      var cur := new char[SCREEN_COLS + 1];
      var idx, i := 0, 0;
      assert s[..|s|] == s;
      while i < |s|
        invariant i <= |s| && Valid() && idx < SCREEN_COLS
        invariant Wrapping(log, cur[..idx]) == Appended(old(log), FeedAll(s[..i]))
      {
        var c := s[i];
        assert s[..i + 1][..i] == s[..i];
        i := i + 1;
        if c == '\r' { continue; }
        if c == '\n' {
          Flush(cur[..idx]);
          idx := 0;
          continue;
        }
        ghost var open := cur[..idx];
        cur[idx] := c;
        idx := idx + 1;
        assert cur[..idx] == open + [c];
        if idx >= SCREEN_COLS {
          Flush(cur[..idx]);
          idx := 0;
        }
      }
      if idx > 0 { Flush(cur[..idx]); }
    }
  }

  ghost function Appended(log: seq<string>, w: Wrapping): Wrapping {
    Wrapping(log + w.lines, w.cur)
  }

  // ----- The input line -----

  /** The ideal input line: a text and a place in it. */
  datatype Line = Line(text: string, cursor: nat) {
    predicate Valid() { cursor <= |text| <= INPUT_MAX_LEN }
  }

  datatype Key = LeftArrow | RightArrow | Backspace | Printable(ch: char) | Enter

  function Edit(l: Line, k: Key): (r: Line)
    requires l.Valid()
    ensures r.Valid()
  {
    match k
    case LeftArrow => if l.cursor > 0 then l.(cursor := l.cursor - 1) else l
    case RightArrow => if l.cursor < |l.text| then l.(cursor := l.cursor + 1) else l
    case Backspace =>
      if l.cursor > 0 then Line(l.text[..l.cursor - 1] + l.text[l.cursor..], l.cursor - 1) else l
    case Printable(ch) =>
      if |l.text| < INPUT_MAX_LEN then Line(l.text[..l.cursor] + [ch] + l.text[l.cursor..], l.cursor + 1) else l
    case Enter => Line([], 0)
  }

  /** What Enter sends: the line with a newline, unless it is empty. */
  function Sent(l: Line, k: Key): string {
    if k.Enter? && l.text != [] then l.text + ['\n'] else []
  }

  /** Backspace undoes a key that was inserted. */
  lemma BackspaceUndoes(l: Line, ch: char)
    requires l.Valid() && |l.text| < INPUT_MAX_LEN
    ensures Edit(Edit(l, Printable(ch)), Backspace) == l
  {
    var t := Edit(l, Printable(ch)).text;
    assert t[..l.cursor] + t[l.cursor + 1..] == l.text;
  }

  /** The arrows undo each other away from the ends, where they do nothing; they change no text. */
  lemma ArrowsUndo(l: Line)
    requires l.Valid()
    ensures Edit(l, LeftArrow).text == l.text && Edit(l, RightArrow).text == l.text
    ensures if l.cursor == 0 then Edit(l, LeftArrow) == l else Edit(Edit(l, LeftArrow), RightArrow) == l
    ensures if l.cursor == |l.text| then Edit(l, RightArrow) == l else Edit(Edit(l, RightArrow), LeftArrow) == l
  {
  }

  /** What is typed after an arrow stands one place further to its side. */
  lemma ArrowsMove(l: Line, ch: char)
    requires l.Valid() && |l.text| < INPUT_MAX_LEN
    ensures l.cursor > 0 ==>
              Edit(Edit(l, LeftArrow), Printable(ch)).text == l.text[..l.cursor - 1] + [ch] + l.text[l.cursor - 1..]
    ensures l.cursor < |l.text| ==>
              Edit(Edit(l, RightArrow), Printable(ch)).text == l.text[..l.cursor + 1] + [ch] + l.text[l.cursor + 1..]
  {
  }

  function EditAll(l: Line, keys: seq<Key>): (r: Line)
    requires l.Valid()
    ensures r.Valid()
  {
    if keys == [] then l else Edit(EditAll(l, keys[..|keys| - 1]), keys[|keys| - 1])
  }

  function Typed(s: string): (keys: seq<Key>)
    ensures |keys| == |s| && forall i | 0 <= i < |s| :: keys[i] == Printable(s[i])
  {
    seq(|s|, i requires 0 <= i < |s| => Printable(s[i]))
  }

  /** What is typed at the cursor stands there, as long as it fits. */
  lemma {:induction false} TypedStands(l: Line, s: string)
    requires l.Valid() && |l.text| + |s| <= INPUT_MAX_LEN
    ensures EditAll(l, Typed(s)) == Line(l.text[..l.cursor] + s + l.text[l.cursor..], l.cursor + |s|)
    decreases |s|
  {
    if s == [] {
      assert l.text[..l.cursor] + [] + l.text[l.cursor..] == l.text;
    } else {
      var front, ch := s[..|s| - 1], s[|s| - 1];
      TypedStands(l, front);
      assert Typed(s)[..|s| - 1] == Typed(front);
      var mid := EditAll(l, Typed(front));
      assert mid.text[..mid.cursor] == l.text[..l.cursor] + front && mid.text[mid.cursor..] == l.text[l.cursor..];
      assert l.text[..l.cursor] + front + [ch] == l.text[..l.cursor] + s by { assert front + [ch] == s; }
    }
  }

  class Editor {
    const inputBuf: array<char>
    var inputLen: nat
    var cursorPos: nat
    ghost var sent: string

    ghost predicate Valid()
      reads this, inputBuf
    {
      && inputBuf.Length == INPUT_MAX_LEN + 1 && cursorPos <= inputLen <= INPUT_MAX_LEN
      && inputBuf[inputLen] == '\0'
    }

    function Current(): (l: Line)
      reads this, inputBuf
      requires Valid()
      ensures l.Valid()
    {
      Line(inputBuf[..inputLen], cursorPos)
    }

    constructor ()
      ensures Valid() && fresh(inputBuf) && Current() == Line([], 0) && sent == []
    {
      inputBuf := new char[INPUT_MAX_LEN + 1](_ => '\0');
      inputLen, cursorPos, sent := 0, 0, [];
    }

    /** `memmove` of the characters from `src` up to and including the NUL. */
    method MoveRest(dst: nat, src: nat)
      requires Valid() && src <= inputLen && dst + (inputLen - src + 1) <= inputBuf.Length
      modifies inputBuf
      ensures inputBuf[dst..dst + (inputLen - src + 1)] == old(inputBuf[src..inputLen + 1])
      ensures inputBuf[..dst] == old(inputBuf[..dst])
    {
      var n := inputLen - src + 1;
      forall i | 0 <= i < n { inputBuf[dst + i] := inputBuf[src + i]; }
    }

    method Delete()
      requires Valid() && cursorPos > 0
      modifies this`inputLen, this`cursorPos, inputBuf
      ensures Valid() && Current() == Edit(old(Current()), Backspace)
    {
      ghost var was := inputBuf[..];
      MoveRest(cursorPos - 1, cursorPos);
      ghost var rest := was[cursorPos..inputLen + 1];
      assert inputBuf[inputLen - 1] == inputBuf[cursorPos - 1..inputLen][inputLen - cursorPos] == rest[inputLen - cursorPos];
      assert inputBuf[..inputLen - 1] == inputBuf[..cursorPos - 1] + inputBuf[cursorPos - 1..inputLen][..inputLen - cursorPos];
      inputLen, cursorPos := inputLen - 1, cursorPos - 1;
    }

    method Insert(ch: char)
      requires Valid() && inputLen < INPUT_MAX_LEN
      modifies this`inputLen, this`cursorPos, inputBuf
      ensures Valid() && Current() == Edit(old(Current()), Printable(ch))
    {
      ghost var was, n := inputBuf[..], inputLen - cursorPos + 1;
      MoveRest(cursorPos + 1, cursorPos);
      ghost var moved := inputBuf[cursorPos + 1..cursorPos + 1 + n];
      inputBuf[cursorPos] := ch;
      assert inputBuf[cursorPos + 1..cursorPos + 1 + n] == moved == was[cursorPos..inputLen + 1];
      assert inputBuf[inputLen + 1] == moved[n - 1];
      assert inputBuf[..inputLen + 1] == was[..cursorPos] + [ch] + moved[..n - 1];
      inputLen, cursorPos := inputLen + 1, cursorPos + 1;
    }

    /** `send_input_line`. */
    method Send()
      requires Valid()
      modifies this, inputBuf
      ensures Valid() && Current() == Edit(old(Current()), Enter) && sent == old(sent) + old(Sent(Current(), Enter))
    {
      if inputLen == 0 { return; }
      sent := sent + inputBuf[..inputLen] + ['\n'];
      forall i | 0 <= i < inputBuf.Length { inputBuf[i] := '\0'; }
      inputLen, cursorPos := 0, 0;
    }

    /** One accepted key: the branches of the loop in `main`. */
    method Press(k: Key)
      requires Valid()
      modifies this, inputBuf
      ensures Valid() && Current() == Edit(old(Current()), k) && sent == old(sent) + old(Sent(Current(), k))
    {
      match k {
        case LeftArrow => if cursorPos > 0 { cursorPos := cursorPos - 1; }
        case RightArrow => if cursorPos < inputLen { cursorPos := cursorPos + 1; }
        case Backspace => if cursorPos > 0 { Delete(); }
        case Printable(ch) => if inputLen < INPUT_MAX_LEN { Insert(ch); }
        case Enter => Send();
      }
    }
  }
}

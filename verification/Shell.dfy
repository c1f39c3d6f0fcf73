/**
 The interactive shell's line editor. Input arrives in reads of any sizes; each byte edits
 the line buffer and echoes. What a command prints is a parameter.
 */
module Shell {
  import opened Text

  const CTRL_C := '\U{3}'
  const BACKSPACE := '\U{8}'
  const DELETE := '\U{7f}'

  predicate IsEnter(c: char) { c == '\r' || c == '\n' }

  predicate IsErase(c: char) { c == DELETE || c == BACKSPACE }

  predicate IsQuit(cmd: string) { cmd == "exit" || cmd == "quit" || cmd == "logout" }

  datatype Console = Console(prompt: string, run: string -> string)

  /** The session after some input. `echo` is what was written since the last prompt. */
  datatype State = State(line: string, out: string, echo: string, ran: seq<string>, open: bool)

  function Start(c: Console): State {
    State("", "\r\n" + c.prompt, "", [], true)
  }

  function Put(s: State, text: string): State { s.(out := s.out + text, echo := s.echo + text) }

  function NewPrompt(c: Console, s: State): State {
    s.(line := "", out := s.out + c.prompt, echo := "")
  }

  function Key(c: Console, s: State, ch: char): State {
    if !s.open then s
    else if IsEnter(ch) then
      var cmd := Trim(s.line);
      var s1 := Put(s, "\r\n");
      if IsQuit(cmd) then Put(s1, "Connection closed.\r\n").(open := false)
      else if cmd == "" then NewPrompt(c, s1)
      else NewPrompt(c, Put(s1, c.run(cmd)).(ran := s.ran + [cmd]))
    else if IsErase(ch) then
      if s.line == "" then s else Put(s, [BACKSPACE, ' ', BACKSPACE]).(line := s.line[..|s.line| - 1])
    else if ch == CTRL_C then NewPrompt(c, Put(s, "^C\r\n"))
    else Put(s, [ch]).(line := s.line + [ch])
  }

  function Feed(c: Console, s: State, keys: string): State
    decreases |keys|
  {
    if keys == "" then s else Feed(c, Key(c, s, keys[0]), keys[1..])
  }

  lemma {:induction false} FeedAppend(c: Console, s: State, a: string, b: string)
    ensures Feed(c, s, a + b) == Feed(c, Feed(c, s, a), b)
    decreases |a|
  {
    hide Key;
    if a == "" {
      assert a + b == b;
    } else {
      assert (a + b)[1..] == a[1..] + b;
      FeedAppend(c, Key(c, s, a[0]), a[1..], b);
    }
  }

  function Joined(chunks: seq<string>): string {
    if chunks == [] then "" else chunks[0] + Joined(chunks[1..])
  }

  class Session {
    const console: Console
    var line: string
    var out: string
    ghost var echo: string
    var ran: seq<string>
    var open: bool

    constructor (console: Console)
      ensures this.console == console && Now() == Start(console)
    {
      this.console := console;
      line, out, echo, ran, open := "", "\r\n" + console.prompt, "", [], true;
    }

    ghost function Now(): State
      reads this
    {
      State(line, out, echo, ran, open)
    }

    method Write(text: string)
      modifies `out, `echo
      ensures out == old(out) + text && echo == old(echo) + text
    {
      out := out + text;
      echo := echo + text;
    }

    method Prompt()
      modifies `line, `out, `echo
      ensures line == "" && out == old(out) + console.prompt && echo == ""
    {
      line := "";
      out := out + console.prompt;
      echo := "";
    }

    method HandleByte(ch: char)
      requires open
      modifies this
      ensures Now() == Key(console, old(Now()), ch)
    {
      if IsEnter(ch) {
        Write("\r\n");
        var cmd := Trim(line);
        if IsQuit(cmd) {
          Write("Connection closed.\r\n");
          open := false;
          return;
        }
        if cmd != "" {
          ran := ran + [cmd];
          Write(console.run(cmd));
        }
        Prompt();
      } else if IsErase(ch) {
        if |line| > 0 {
          line := line[..|line| - 1];
          Write([BACKSPACE, ' ', BACKSPACE]);
        }
      } else if ch == CTRL_C {
        line := "";
        Write("^C\r\n");
        Prompt();
      } else {
        line := line + [ch];
        Write([ch]);
      }
    }

    /** The read loop: however the input is split into reads, the session is that of its bytes. */
    method RunShell(input: seq<string>)
      modifies this
      ensures Now() == Reads(console, old(Now()), input)
      ensures Now() == Feed(console, old(Now()), Joined(input))
    {
      hide Key;
      ReadsAsOne(console, Now(), input);
      var n := 0;
      while n < |input| && open
        invariant n <= |input|
        invariant Reads(console, Now(), input[n..]) == Reads(console, old(Now()), input)
      {
        var buf := input[n];
        assert input[n..][1..] == input[n + 1..];
        ghost var before := Now();
        var i := 0;
        while i < |buf| && open
          invariant i <= |buf|
          invariant ReadBytes(console, Now(), buf[i..]) == ReadBytes(console, before, buf)
        {
          assert buf[i..][1..] == buf[i + 1..];
          HandleByte(buf[i]);
          i := i + 1;
        }
        n := n + 1;
      }
    }
  }

  // ---- Read by read ----

  /** The bytes of one read, up to the one that closes the session. */
  function ReadBytes(c: Console, s: State, buf: string): State
    decreases |buf|
  {
    if buf == "" || !s.open then s else ReadBytes(c, Key(c, s, buf[0]), buf[1..])
  }

  /** One read after another, while the session is open. */
  function Reads(c: Console, s: State, input: seq<string>): State
    decreases |input|
  {
    if input == [] || !s.open then s else Reads(c, ReadBytes(c, s, input[0]), input[1..])
  }

  lemma {:induction false} ReadBytesFeeds(c: Console, s: State, buf: string)
    ensures ReadBytes(c, s, buf) == Feed(c, s, buf)
    decreases |buf|
  {
    hide Key;
    if buf == "" {
    } else if s.open {
      ReadBytesFeeds(c, Key(c, s, buf[0]), buf[1..]);
    } else {
      FeedClosed(c, s, buf);
    }
  }

  /** The read loop sees only the concatenation of its reads. */
  lemma {:induction false} ReadsAsOne(c: Console, s: State, input: seq<string>)
    ensures Reads(c, s, input) == Feed(c, s, Joined(input))
    decreases |input|
  {
    hide Key;
    if input == [] {
    } else if s.open {
      ReadBytesFeeds(c, s, input[0]);
      FeedAppend(c, s, input[0], Joined(input[1..]));
      ReadsAsOne(c, ReadBytes(c, s, input[0]), input[1..]);
    } else {
      FeedClosed(c, s, Joined(input));
    }
  }

  /** A closed session ignores the rest of what was read. */
  lemma {:induction false} FeedClosed(c: Console, s: State, keys: string)
    requires !s.open
    ensures Feed(c, s, keys) == s
    decreases |keys|
  {
    if keys == "" {
    } else {
      FeedClosed(c, s, keys[1..]);
    }
  }

  // ---- The commands, told from the input text alone ----

  /** What a line of input amounts to: erasing takes back a character, Ctrl-C the whole line. */
  function Edit(keys: string): string {
    if keys == "" then ""
    else
      var before, ch := Edit(keys[..|keys| - 1]), keys[|keys| - 1];
      if IsErase(ch) then (if before == "" then "" else before[..|before| - 1])
      else if ch == CTRL_C then ""
      else before + [ch]
  }

  /** The commands run: each finished line, edited and trimmed, unless blank, up to a quit. */
  function Commands(keys: string): seq<string>
    decreases |keys|
  {
    var line := TakeUntil(keys, IsEnter);
    if |line| == |keys| then []
    else
      var cmd := Trim(Edit(line));
      if IsQuit(cmd) then []
      else (if cmd == "" then [] else [cmd]) + Commands(keys[|line| + 1..])
  }

  /** While a line is being typed the buffer holds its edited form and nothing runs. */
  lemma {:induction false} Typing(c: Console, s: State, keys: string)
    requires s.open && s.line == "" && Free(keys, IsEnter)
    ensures var s' := Feed(c, s, keys);
            s'.open && s'.line == Edit(keys) && s'.ran == s.ran
    decreases |keys|
  {
    if keys == "" {
    } else {
      var n := |keys| - 1;
      Typing(c, s, keys[..n]);
      FeedAppend(c, s, keys[..n], keys[n..]);
      assert keys == keys[..n] + keys[n..] && !IsEnter(keys[n]);
      var s1 := Feed(c, s, keys[..n]);
      assert keys[n..][1..] == "" && Feed(c, s1, keys[n..]) == Key(c, s1, keys[n]);
    }
  }

  lemma FeedThrough(c: Console, s: State, line: string, ch: char, rest: string)
    ensures Feed(c, s, line + ([ch] + rest)) == Feed(c, Key(c, Feed(c, s, line), ch), rest)
  {
    hide Key;
    FeedAppend(c, s, line, [ch] + rest);
    assert ([ch] + rest)[1..] == rest;
  }

  /** The commands a session runs are those of the input text. */
  lemma {:induction false} RanCommands(c: Console, s: State, keys: string)
    requires s.open && s.line == ""
    ensures Feed(c, s, keys).ran == s.ran + Commands(keys)
    decreases |keys|
  {
    hide TakeUntil, Trim, Edit;
    var line := TakeUntil(keys, IsEnter);
    Typing(c, s, line);
    if |line| == |keys| {
      assert line == keys;
    } else {
      var rest := keys[|line| + 1..];
      var s1 := Feed(c, s, line);
      var s2 := Key(c, s1, keys[|line|]);
      FeedThrough(c, s, line, keys[|line|], rest);
      assert keys == line + ([keys[|line|]] + rest);
      if s2.open {
        RanCommands(c, s2, rest);
      } else {
        FeedClosed(c, s2, rest);
      }
    }
  }

  /**
   Two ways of splitting the same bytes into reads run the same commands and print the same;
   the commands are those the text spells.
   */
  lemma SplitImmaterial(c: Console, reads1: seq<string>, reads2: seq<string>)
    requires Joined(reads1) == Joined(reads2)
    ensures Reads(c, Start(c), reads1) == Reads(c, Start(c), reads2)
    ensures Reads(c, Start(c), reads1).ran == Commands(Joined(reads2))
  {
    ReadsAsOne(c, Start(c), reads1);
    ReadsAsOne(c, Start(c), reads2);
    RanCommands(c, Start(c), Joined(reads2));
  }

  // ---- What is written ----

  /** However a line was edited, Enter answers it: the command's output and a prompt, or a farewell. */
  lemma LineAnswered(c: Console, s: State, keys: string, enter: char)
    requires s.open && s.line == "" && Free(keys, IsEnter) && IsEnter(enter)
    ensures var cmd, typed, s' := Trim(Edit(keys)), Feed(c, s, keys), Feed(c, s, keys + [enter]);
            && (IsQuit(cmd) ==> s'.out == typed.out + "\r\nConnection closed.\r\n" && !s'.open && s'.ran == s.ran)
            && (!IsQuit(cmd) ==> s'.open && s'.line == "")
            && (cmd == "" ==> s'.out == typed.out + "\r\n" + c.prompt && s'.ran == s.ran)
            && (cmd != "" && !IsQuit(cmd) ==>
                 s'.out == typed.out + "\r\n" + c.run(cmd) + c.prompt && s'.ran == s.ran + [cmd])
  {
    hide Trim, Edit, Feed;
    Typing(c, s, keys);
    FeedOneMore(c, s, keys, enter);
    assert "\r\n" + "Connection closed.\r\n" == "\r\nConnection closed.\r\n";
  }

  lemma FeedOneMore(c: Console, s: State, keys: string, ch: char)
    ensures Feed(c, s, keys + [ch]) == Key(c, Feed(c, s, keys), ch)
  {
    hide Key;
    FeedAppend(c, s, keys, [ch]);
    assert [ch][1..] == "";
  }

  /** A key that stands for itself. */
  predicate IsPlain(ch: char) { !IsEnter(ch) && !IsErase(ch) && ch != CTRL_C }

  ghost predicate Plain(keys: string) { forall i :: 0 <= i < |keys| ==> IsPlain(keys[i]) }

  lemma {:induction false} PlainTyping(c: Console, s: State, keys: string)
    requires s.open && Plain(keys)
    ensures Feed(c, s, keys) == s.(line := s.line + keys, out := s.out + keys, echo := s.echo + keys)
    ensures Free(keys, IsEnter)
    decreases |keys|
  {
    if keys == "" {
      assert s.line + keys == s.line && s.out + keys == s.out && s.echo + keys == s.echo;
    } else {
      assert [keys[0]] + keys[1..] == keys && IsPlain(keys[0]);
      assert forall t: string :: t + [keys[0]] + keys[1..] == t + ([keys[0]] + keys[1..]);
      PlainTyping(c, Key(c, s, keys[0]), keys[1..]);
    }
  }

  lemma {:induction false} PlainLine(keys: string)
    requires Plain(keys)
    ensures Edit(keys) == keys
  {
    if keys == "" {
    } else {
      var n := |keys| - 1;
      PlainLine(keys[..n]);
      assert keys == keys[..n] + [keys[n]] && IsPlain(keys[n]);
    }
  }

  ghost predicate AllPlain(lines: seq<string>) { forall i :: 0 <= i < |lines| ==> Plain(lines[i]) }

  ghost predicate NoQuit(lines: seq<string>) { forall i :: 0 <= i < |lines| ==> !IsQuit(Trim(lines[i])) }

  /** The lines as they are sent, each with its Enter. */
  function Sent(lines: seq<string>): string {
    if lines == [] then "" else Sent(lines[..|lines| - 1]) + (lines[|lines| - 1] + "\r")
  }

  /** What stands on the terminal for them: each line, the output of its command, and a prompt. */
  function Dialogue(c: Console, lines: seq<string>): string {
    if lines == [] then "\r\n" + c.prompt
    else
      var line := lines[|lines| - 1];
      var said := if AllBlank(line) then "" else c.run(Trim(line));
      Dialogue(c, lines[..|lines| - 1]) + line + "\r\n" + said + c.prompt
  }

  predicate AllBlank(line: string) { forall i :: 0 <= i < |line| ==> IsSpace(line[i]) }

  lemma BlankTrims(line: string)
    ensures AllBlank(line) <==> Trim(line) == ""
  {
    if AllBlank(line) {
      TrimUnique(line, "", "");
      assert line + ("" + "") == line;
    } else {
      var left, right := TrimSplits(line);
      assert "" + right == right;
      if Trim(line) == "" {
        forall i | 0 <= i < |line| ensures IsSpace(line[i]) {
          assert line[i] == if i < |left| then left[i] else right[i - |left|];
        }
      }
    }
  }

  /** Any conversation in plain lines, however many, is written out in full and in order. */
  lemma {:induction false} Conversation(c: Console, lines: seq<string>)
    requires AllPlain(lines) && NoQuit(lines)
    ensures var s := Feed(c, Start(c), Sent(lines)); s.open && s.line == "" && s.out == Dialogue(c, lines)
  {
    hide Feed, Trim, Plain, IsQuit, IsSpace;
    if lines == [] {
      NoKeys(c, Start(c));
    } else {
      var front, line := lines[..|lines| - 1], lines[|lines| - 1];
      Conversation(c, front);
      var s := Feed(c, Start(c), Sent(front));
      FeedAppend(c, Start(c), Sent(front), line + "\r");
      PlainTyping(c, s, line);
      PlainLine(line);
      LineAnswered(c, s, line, '\r');
      BlankTrims(line);
      hide AllBlank;
      var typed := s.out + line;
      assert Dialogue(c, lines) == typed + "\r\n" + (if AllBlank(line) then "" else c.run(Trim(line))) + c.prompt;
      if AllBlank(line) { assert typed + "\r\n" + "" == typed + "\r\n"; }
    }
  }

  lemma NoKeys(c: Console, s: State)
    ensures Feed(c, s, "") == s
  {}

  // ---- What the terminal shows ----

  /** A terminal row to the right of the prompt, with the cursor. */
  datatype Row = Row(cells: string, cursor: nat)

  function Display(r: Row, ch: char): (r': Row)
    requires r.cursor <= |r.cells|
    ensures r'.cursor <= |r'.cells|
  {
    if ch == BACKSPACE then (if r.cursor == 0 then r else r.(cursor := r.cursor - 1))
    else if r.cursor == |r.cells| then Row(r.cells + [ch], r.cursor + 1)
    else Row(r.cells[r.cursor := ch], r.cursor + 1)
  }

  function Screen(text: string): (r: Row)
    ensures r.cursor <= |r.cells|
  {
    if text == "" then Row("", 0) else Display(Screen(text[..|text| - 1]), text[|text| - 1])
  }

  /** Up to the cursor the row shows the line buffer; from there on it is blank. */
  ghost predicate Shows(r: Row, line: string) {
    && r.cursor == |line| <= |r.cells| && r.cells[..r.cursor] == line
    && forall i :: r.cursor <= i < |r.cells| ==> r.cells[i] == ' '
  }

  /** A byte the editor or the terminal has a meaning for. */
  predicate IsOrdinary(ch: char) { ' ' <= ch <= '~' || IsEnter(ch) || IsErase(ch) || ch == CTRL_C }

  lemma ScreenOne(text: string, ch: char)
    ensures Screen(text + [ch]) == Display(Screen(text), ch)
  {
    assert (text + [ch])[..|text + [ch]| - 1] == text;
  }

  lemma ScreenErase(text: string)
    ensures Screen(text + [BACKSPACE, ' ', BACKSPACE])
            == Display(Display(Display(Screen(text), BACKSPACE), ' '), BACKSPACE)
  {
    ScreenOne(text, BACKSPACE);
    ScreenOne(text + [BACKSPACE], ' ');
    ScreenOne(text + [BACKSPACE] + [' '], BACKSPACE);
    assert text + [BACKSPACE] + [' '] + [BACKSPACE] == text + [BACKSPACE, ' ', BACKSPACE];
  }

  lemma KeyShown(c: Console, s: State, ch: char)
    requires s.open && IsOrdinary(ch) && Shows(Screen(s.echo), s.line)
    ensures var s' := Key(c, s, ch); s'.open ==> Shows(Screen(s'.echo), s'.line)
  {
    hide Screen, Trim;
    assert Screen("") == Row("", 0) by { EmptyScreen(); }
    if IsErase(ch) {
      ScreenErase(s.echo);
    } else {
      ScreenOne(s.echo, ch);
    }
  }

  lemma EmptyScreen()
    ensures Screen("") == Row("", 0)
  {}

  /** After any ordinary input, the terminal shows the line buffer after the last prompt. */
  lemma {:induction false} LineAlwaysShown(c: Console, s: State, keys: string)
    requires s.open && Shows(Screen(s.echo), s.line)
    requires forall i :: 0 <= i < |keys| ==> IsOrdinary(keys[i])
    ensures var s' := Feed(c, s, keys); s'.open ==> Shows(Screen(s'.echo), s'.line)
    decreases |keys|
  {
    hide Key, Screen, Shows, IsOrdinary;
    if keys == "" {
    } else {
      KeyShown(c, s, keys[0]);
      var s1 := Key(c, s, keys[0]);
      if s1.open {
        LineAlwaysShown(c, s1, keys[1..]);
      } else {
        FeedClosed(c, s1, keys[1..]);
      }
    }
  }

  /** The output so far ends with a prompt followed by `echo`. */
  ghost predicate EchoAfterPrompt(c: Console, s: State) {
    var tail := c.prompt + s.echo;
    |tail| <= |s.out| && s.out[|s.out| - |tail|..] == tail
  }

  lemma KeyEchoes(c: Console, s: State, ch: char)
    requires EchoAfterPrompt(c, s)
    ensures EchoAfterPrompt(c, Key(c, s, ch))
  {
    hide Trim, EchoAfterPrompt;
    var s' := Key(c, s, ch);
    if s.open {
      var cmd := Trim(s.line);
      if IsEnter(ch) && IsQuit(cmd) {
        Echoes(c, s, Put(s, "\r\n"), "\r\n");
        Echoes(c, Put(s, "\r\n"), s', "Connection closed.\r\n");
      } else if IsEnter(ch) {
        PromptEchoes(c, if cmd == "" then Put(s, "\r\n") else Put(Put(s, "\r\n"), c.run(cmd)), s');
      } else if IsErase(ch) {
        if s.line != "" { Echoes(c, s, s', [BACKSPACE, ' ', BACKSPACE]); }
      } else if ch == CTRL_C {
        PromptEchoes(c, Put(s, "^C\r\n"), s');
      } else {
        Echoes(c, s, s', [ch]);
      }
    }
  }

  lemma Echoes(c: Console, s: State, s': State, text: string)
    requires EchoAfterPrompt(c, s) && s'.out == s.out + text && s'.echo == s.echo + text
    ensures EchoAfterPrompt(c, s')
  {
    var tail := c.prompt + s.echo;
    assert s.out == s.out[..|s.out| - |tail|] + tail;
    assert s'.out == s.out[..|s.out| - |tail|] + (tail + text);
    assert c.prompt + s'.echo == tail + text;
  }

  lemma PromptEchoes(c: Console, s: State, s': State)
    requires s'.out == s.out + c.prompt && s'.echo == ""
    ensures EchoAfterPrompt(c, s')
  {
    assert c.prompt + "" == c.prompt;
  }

  lemma {:induction false} EchoAlwaysAfterPrompt(c: Console, s: State, keys: string)
    requires EchoAfterPrompt(c, s)
    ensures EchoAfterPrompt(c, Feed(c, s, keys))
    decreases |keys|
  {
    hide Key, EchoAfterPrompt;
    if keys == "" {
    } else {
      KeyEchoes(c, s, keys[0]);
      EchoAlwaysAfterPrompt(c, Key(c, s, keys[0]), keys[1..]);
    }
  }

  /**
   From the first prompt on: what was written after the last prompt, as a terminal shows it,
   is the line buffer with the cursor at its end.
   */
  lemma LineShownFromStart(c: Console, keys: string)
    requires forall i :: 0 <= i < |keys| ==> IsOrdinary(keys[i])
    ensures var s := Feed(c, Start(c), keys);
            EchoAfterPrompt(c, s) && (s.open ==> Shows(Screen(s.echo), s.line))
  {
    EmptyScreen();
    LineAlwaysShown(c, Start(c), keys);
    assert c.prompt + "" == c.prompt;
    EchoAlwaysAfterPrompt(c, Start(c), keys);
  }
}

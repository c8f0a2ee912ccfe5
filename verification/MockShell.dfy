/** The simulated VM's shell as the program writes it: an index into a line, and
    after every key the cheapest output that keeps the screen right. */
module MockShell {
  import opened Terminal
  import opened LineDisplay
  import opened QuietOutput
  import opened ShellSpec
  import opened Basics
  import Utf8

  /** What running a command line prints before the next prompt. */
  function Response(env: Env, ran: nat, entry: string): string {
    if entry == "" then "" else Render(env.exec(ran, entry).items)
  }

  class MockVM {
    const env: Env
    var name: string
    var line: string
    var pos: nat
    var hist: seq<string>
    var histIdx: nat
    var cwd: string
    var ran: nat               // command lines run so far; picks their outcomes
    var pending: seq<Utf8.byte>
    var ready: bool
    var output: string         // everything published to the current console

    // --- what the state means ------------------------------------------------

    ghost function State(): Shell
      reads this
      requires pos <= |line|
    {
      Shell(Zipper(line[..pos], line[pos..]), hist, histIdx, cwd, ran)
    }

    /** A terminal that has received everything published. */
    ghost function Display(): Screen
      reads this
    {
      Run(BLANK, output)
    }

    ghost predicate Consistent()
      reads this
    {
      && pos <= |line|
      && histIdx <= |hist|
      && Accepts(env, line)
      && (forall k :: 0 <= k < |hist| ==> Accepts(env, hist[k]))
      && Glyphs(name) && Glyphs(cwd)
      && Settled(Display()) && Tame(output)
      && (!ready ==> Fresh(Display()))
    }

    /** The display's current row is exactly prompt and line, cursor included. */
    ghost predicate Shown()
      reads this
    {
      Shows(Display(), PromptCells(name, cwd), line, pos)
    }

    lemma LineIsText()
      requires Consistent()
      ensures Glyphs(line) && Sane(env, State())
    {
      assert forall i :: 0 <= i < |line| ==> env.printable(line[i]);
    }

    lemma RowUntouched()
      requires Consistent()
      ensures OnlyRow(Display(), Display())
    {
    }

    // --- power ---------------------------------------------------------------

    constructor (env: Env, name: string)
      requires Glyphs(name)
      ensures this.env == env && this.name == name && line == "" && pos == 0 && hist == [] && histIdx == 0 && ran == 0
      ensures pending == [] && !ready && cwd == "/root" && Consistent()
    {
      this.env := env;
      this.name := name;
      line, pos, hist, histIdx, ran := "", 0, [], 0, 0;
      cwd := "/root";
      pending, ready, output := [], false, "";
    }

    method Publish(text: string)
      requires Tame(output) && Tame(text)
      modifies `output
      ensures output == old(output) + text && Tame(output)
      ensures Display() == Run(old(Display()), text)
    {
      RunConcat(BLANK, output, text);
      TameConcat(output, text);
      output := output + text;
    }

    /** Booting prints lines and then the prompt, and input is accepted from then
        on. The screen matches the line kept from before exactly when that line
        cannot be seen and its cursor is at the start. */
    method Boot(lines: seq<Item>)
      requires Consistent() && !ready && WellFormed(lines)
      modifies `output, `ready
      ensures Consistent() && ready && State() == old(State())
      ensures Shown() <==> pos == 0 && line == Blanks(|line|)
      ensures output == old(output) + Render(lines) + Prompt(name, cwd)
    {
      hide Tame;
      RenderStaysFresh(Display(), lines);
      TameRender(lines);
      TamePrompt(name, cwd);
      Publish(Render(lines));
      ready := true;
      PromptShows(Display(), name, cwd, line, pos);
      Publish(Prompt(name, cwd));
    }

    /** Suspending stops input; the line, the cursor and the history are kept. */
    method Suspend()
      requires Consistent()
      modifies `ready, `output
      ensures !ready && State() == old(State()) && pending == old(pending)
      ensures Consistent() && output == ""
    {
      ready := false;
      TameText("");
      output := "";            // resume() gives the VM a new, empty console
    }

    /** A new name shows up only with the next repaint. */
    method Rename(newName: string)
      requires Consistent() && Glyphs(newName)
      modifies `name
      ensures name == newName && Consistent()
      ensures old(Shown()) ==> (Shown() <==> newName == old(name))
    {
      PromptCellsAre(name, cwd);
      PromptCellsAre(newName, cwd);
      ghost var t, kept := Display(), name;
      if Shows(t, PromptCells(kept, cwd), line, pos) && Shows(t, PromptCells(newName, cwd), line, pos) {
        assert |kept| == |newName|;
        forall i | 0 <= i < |kept| ensures kept[i] == newName[i] {
          assert Cell(PromptCells(kept, cwd) + line, 5 + i) == Cell(PromptCells(newName, cwd) + line, 5 + i);
        }
      }
      name := newName;
    }

    // --- input ---------------------------------------------------------------

    method Redraw()
      requires Consistent() && ready
      modifies `output
      ensures Consistent() && Shown() && OnlyRow(old(Display()), Display())
    {
      hide Tame, Run, Shows, Settled, Fresh, PromptCells, OnlyRow;
      LineIsText();
      RepaintShows(Display(), name, cwd, line, pos);
      TameRepaint(name, cwd, line, pos);
      Publish(Repaint(name, cwd, line, pos));
    }

    method ShowPrompt()
      requires Consistent() && ready && Fresh(Display()) && line == "" && pos == 0
      modifies `output
      ensures Consistent() && Shown() && OnlyRow(old(Display()), Display())
      ensures output == old(output) + Prompt(name, cwd)
    {
      hide Tame;
      PromptShows(Display(), name, cwd, line, pos);
      TamePrompt(name, cwd);
      Publish(Prompt(name, cwd));
    }

    /** Running a submitted line: whole lines of output, then the prompt. */
    method Exec(entry: string)
      requires Consistent() && ready && Fresh(Display()) && line == "" && pos == 0
      modifies `output, `cwd, `ran
      ensures Consistent() && Shown()
      ensures if entry == "" then cwd == old(cwd) && ran == old(ran)
              else cwd == env.exec(old(ran), entry).cwd && ran == old(ran) + 1
      ensures output == old(output) + Response(env, old(ran), entry) + Prompt(name, cwd)
    {
      hide Tame, Run, Shows, PromptCells, Render, Prompt;
      if entry != "" {
        var outcome: Outcome := env.exec(ran, entry);
        RenderStaysFresh(Display(), outcome.items);
        TameRender(outcome.items);
        Publish(Render(outcome.items));
        cwd, ran := outcome.cwd, ran + 1;
      }
      ShowPrompt();
    }

    /** Apply a cheap edit at the cursor and send its echo. */
    method EchoEdit(e: Edit)
      requires Consistent() && ready && Cheap(e, line, pos)
      requires e.Append? ==> env.printable(e.ch)
      modifies `line, `pos, `output
      ensures Consistent() && (old(Shown()) ==> Shown()) && OnlyRow(old(Display()), Display())
      ensures line == EditedLine(e, old(line)) && pos == EditedPos(e, old(pos))
      ensures output == old(output) + Echo(e)
    {
      hide Tame, Run, Shows, Settled, Fresh, PromptCells, Echo;
      LineIsText();
      EchoStaysInRow(Display(), e);
      TameEcho(e);
      if Shows(Display(), PromptCells(name, cwd), line, pos) {
        EchoKeepsShown(Display(), PromptCells(name, cwd), line, pos, e);
      }
      Publish(Echo(e));
      line, pos := EditedLine(e, line), EditedPos(e, pos);
    }

    method LeaveRow()
      requires Consistent()
      modifies `output
      ensures Consistent() && Fresh(Display()) && output == old(output) + "\r\n"
    {
      hide Tame;
      RunLineEnd(Display());
      TameText("\r\n");
      Publish("\r\n");
    }

    /** Enter: leave the row, remember a non-blank line, run it and prompt again. */
    method Enter()
      requires Consistent() && ready
      modifies `line, `pos, `hist, `histIdx, `cwd, `ran, `output
      ensures Consistent() && Shown() && State() == Submitted(env, old(State()))
      ensures output == old(output) + "\r\n" + Response(env, old(ran), Strip(old(line))) + Prompt(name, cwd)
      ensures forall i, j :: Middle(old(line), i, j) ==>
                var entry := old(line)[i..j];
                && hist == old(hist) + [entry] && ran == old(ran) + 1
                && cwd == env.exec(old(ran), entry).cwd
                && output == old(output) + "\r\n" + Render(env.exec(old(ran), entry).items) + Prompt(name, cwd)
      ensures AllBlank(old(line)) ==>
                && hist == old(hist) && ran == old(ran) && cwd == old(cwd)
                && output == old(output) + "\r\n" + Prompt(name, cwd)
      ensures histIdx == |hist|
    {
      hide Tame, Prompt, Render, Run, Shows, Settled, Fresh, PromptCells, Glyphs, Strip;
      LineIsText();
      StripIsMiddle(line);
      StripAccepts(env, line);
      assert line[..pos] + line[pos..] == line;
      LeaveRow();
      var entry := Strip(line);
      line, pos := "", 0;
      if entry != "" {
        hist := hist + [entry];
      }
      histIdx := |hist|;
      Exec(entry);
      assert old(output) + "\r\n" + "" == old(output) + "\r\n";
    }

    method Backspace()
      requires Consistent() && ready
      modifies `line, `pos, `output
      ensures Consistent() && (old(Shown()) ==> Shown()) && OnlyRow(old(Display()), Display())
      ensures State() == Typed(env, old(State()), '\U{08}')
      ensures old(0 < pos == |line|) ==> output == old(output) + RUB_OUT
    {
      if pos > 0 {
        if pos == |line| {
          EchoEdit(RubLast);
        } else {
          line := line[..pos - 1] + line[pos..];
          pos := pos - 1;
          assert line[..pos] == old(line)[..pos] && line[pos..] == old(line)[pos + 1..];
          Redraw();
        }
      }
    }

    method Insert(ch: char)
      requires Consistent() && ready && env.printable(ch)
      modifies `line, `pos, `output
      ensures Consistent() && (old(Shown()) ==> Shown()) && OnlyRow(old(Display()), Display())
      ensures line[..pos] == old(line[..pos]) + [ch] && line[pos..] == old(line[pos..])
      ensures old(pos == |line|) ==> output == old(output) + [ch]
    {
      hide Tame, Run, Shows, Settled, Fresh, PromptCells;
      if pos == |line| {
        EchoEdit(Append(ch));
      } else {
        line := line[..pos] + [ch] + line[pos..];
        pos := pos + 1;
        assert line[..pos] == old(line)[..pos - 1] + [ch] && line[pos..] == old(line)[pos - 1..];
        Redraw();
      }
    }

    /** Interrupt: mark the abandoned line and prompt again; the history index stays. */
    method Interrupt()
      requires Consistent() && ready
      modifies `line, `pos, `output
      ensures Consistent() && Shown() && line == "" && pos == 0 && NextRow(old(Display()), Display())
      ensures output == old(output) + (Coloured("90", "^C") + "\r\n") + Prompt(name, cwd)
    {
      hide Tame, Prompt, Coloured;
      InterruptFreshens(Display());
      TameInterrupt();
      Publish(Coloured("90", "^C") + "\r\n");
      line, pos := "", 0;
      ShowPrompt();
    }

    /** Form feed: clear the terminal and draw the line again. */
    method ClearScreen()
      requires Consistent() && ready
      modifies `output
      ensures Consistent() && Shown() && Display().y == 0
    {
      hide Tame;
      RunClearHome(Display());
      TameClearHome();
      Publish(CLEAR_HOME);
      Redraw();
    }

    /** Move the cursor or clear the line, then repaint. */
    method Replace(newLine: string, newPos: nat)
      requires Consistent() && ready && newPos <= |newLine| && Accepts(env, newLine)
      modifies `line, `pos, `output
      ensures Consistent() && Shown() && line == newLine && pos == newPos
      ensures OnlyRow(old(Display()), Display())
    {
      hide Tame, Run, Shows, Settled, Fresh, PromptCells, OnlyRow;
      line, pos := newLine, newPos;
      Redraw();
    }

    /** The keys after which the whole line has been drawn anew. */
    predicate Repaints(ch: char) {
      LeavesRow(ch) || ch == '\U{01}' || ch == '\U{05}' || ch == '\U{15}'
    }

    /** The keys after which the cursor may be in another row. */
    predicate LeavesRow(ch: char) {
      ch == '\r' || ch == '\n' || ch == '\U{03}' || ch == '\U{0C}'
    }

    /** One key. The line changes as the zipper says; a screen that was right stays
        right, and one that was stale after a rename or a resume is put right by
        every key that repaints. No other row is touched except by the keys that run
        the line, interrupt it or clear the screen. */
    method Key(ch: char)
      requires Consistent() && ready
      modifies `line, `pos, `hist, `histIdx, `cwd, `ran, `output
      ensures Consistent()
      ensures State() == Typed(env, old(State()), ch)
      ensures old(Shown()) || Repaints(ch) ==> Shown()
      ensures !LeavesRow(ch) ==> OnlyRow(old(Display()), Display())
      ensures ch == '\U{03}' ==> NextRow(old(Display()), Display())
      ensures ch == '\U{0C}' ==> Display().y == 0 && line == old(line) && pos == old(pos)
      ensures ch != '\r' && ch != '\n' ==> hist == old(hist) && histIdx == old(histIdx) && ran == old(ran) && cwd == old(cwd)
      ensures env.printable(ch) && old(pos == |line|) ==> output == old(output) + [ch]
      ensures (ch == '\U{7F}' || ch == '\U{08}') && old(0 < pos == |line|) ==> output == old(output) + RUB_OUT
    {
      hide Tame, Run, Shows, Settled, Fresh, PromptCells;
      assert line[..pos] + line[pos..] == line;
      RowUntouched();
      if ch == '\r' || ch == '\n' {
        Enter();
      } else if ch == '\U{7F}' || ch == '\U{08}' {
        Backspace();
      } else if ch == '\U{03}' {
        Interrupt();
      } else if ch == '\U{0C}' {
        ClearScreen();
      } else if ch == '\U{01}' {
        Replace(line, 0);
      } else if ch == '\U{05}' {
        Replace(line, |line|);
      } else if ch == '\U{15}' {
        Replace("", 0);
      } else if env.printable(ch) {
        Insert(ch);
      }
    }

    method Up()
      requires Consistent() && ready
      modifies `line, `pos, `histIdx, `output
      ensures Consistent() && State() == Steered(old(State()), "A")
      ensures OnlyRow(old(Display()), Display())
      ensures old(Shown()) || old(0 < histIdx) ==> Shown()
    {
      hide Tame, Run, Shows, Settled, Fresh, PromptCells;
      RowUntouched();
      if hist != [] && histIdx > 0 {
        histIdx := histIdx - 1;
        Replace(hist[histIdx], |hist[histIdx]|);
      }
    }

    method Down()
      requires Consistent() && ready
      modifies `line, `pos, `histIdx, `output
      ensures Consistent() && State() == Steered(old(State()), "B")
      ensures OnlyRow(old(Display()), Display())
      ensures Shown()
    {
      hide Tame, Run, Shows, Settled, Fresh, PromptCells;
      if histIdx + 1 < |hist| {
        histIdx := histIdx + 1;
        Replace(hist[histIdx], |hist[histIdx]|);
      } else {
        histIdx := |hist|;
        Replace("", 0);
      }
    }

    /** A cursor key: `final` is the character after ESC [ , or nothing. */
    method Csi(final: string)
      requires Consistent() && ready
      modifies `line, `pos, `histIdx, `output
      ensures Consistent()
      ensures State() == Steered(old(State()), final) && OnlyRow(old(Display()), Display())
      ensures old(Shown()) || final == "B" || (final == "A" && old(0 < histIdx)) ==> Shown()
      ensures final == "C" && old(pos < |line|) ==> output == old(output) + RIGHT
      ensures final == "D" && old(pos > 0) ==> output == old(output) + LEFT
    {
      hide Tame, Run, Shows, Settled, Fresh, PromptCells, OnlyRow;
      RowUntouched();
      if final == "A" {
        Up();
      } else if final == "B" {
        Down();
      } else if final == "C" && pos < |line| {
        Right();
      } else if final == "D" && pos > 0 {
        Left();
      }
    }

    method Right()
      requires Consistent() && ready && pos < |line|
      modifies `line, `pos, `output
      ensures Consistent() && (old(Shown()) ==> Shown()) && OnlyRow(old(Display()), Display())
      ensures State() == Steered(old(State()), "C") && output == old(output) + RIGHT
    {
      hide Tame, Run, Shows, Settled, Fresh, PromptCells, OnlyRow;
      EchoEdit(StepRight);
      assert line[..pos] == line[..pos - 1] + [line[pos - 1]] && line[pos - 1..][1..] == line[pos..];
    }

    method Left()
      requires Consistent() && ready && pos > 0
      modifies `line, `pos, `output
      ensures Consistent() && (old(Shown()) ==> Shown()) && OnlyRow(old(Display()), Display())
      ensures State() == Steered(old(State()), "D") && output == old(output) + LEFT
    {
      hide Tame, Run, Shows, Settled, Fresh, PromptCells, OnlyRow;
      EchoEdit(StepLeft);
      assert line[pos..] == [line[pos]] + line[pos + 1..] && line[..pos + 1][..pos] == line[..pos];
    }

    /** Decoded input, key by key; a three-character group starting ESC [ is one key. */
    method EnterText(text: string)
      requires Consistent() && ready
      modifies `line, `pos, `hist, `histIdx, `cwd, `ran, `output
      ensures Consistent() && State() == Entered(env, old(State()), text)
      ensures old(Shown()) ==> Shown()
    {
      hide Tame, Run, Shows, Settled, Fresh, PromptCells, Entered;
      var i: nat := 0;
      while i < |text|
        invariant Consistent()
        invariant Entered(env, State(), text[Min(i, |text|)..]) == Entered(env, old(State()), text)
        invariant old(Shown()) ==> Shown()
        decreases |text| - i
      {
        KeyAt(env, State(), text, i);
        if text[i] == ESC && i + 1 < |text| && text[i + 1] == '[' {
          var final := text[i + 2..Min(i + 3, |text|)];
          Csi(final);
          i := i + 3;
        } else {
          Key(text[i]);
          i := i + 1;
        }
      }
      assert text[Min(i, |text|)..] == "";
      EnteredNothing(env, State());
    }

    /** Bytes from a client. Before the prompt they are ignored; after it they join
        the held ones, and what decodes is entered key by key. */
    method Write(data: seq<Utf8.byte>)
      requires Consistent()
      modifies `line, `pos, `hist, `histIdx, `cwd, `ran, `output, `pending
      ensures Consistent()
      ensures !ready ==> State() == old(State()) && pending == old(pending) && output == old(output)
      ensures ready ==>
                pending == if Utf8.Decode(old(pending) + data).Some? || |old(pending) + data| > 8 then []
                           else old(pending) + data
      ensures ready ==> pending == Utf8.Absorb(old(pending), data).held
      ensures ready ==> State() == Entered(env, old(State()), Utf8.Absorb(old(pending), data).text)
      ensures old(Shown()) ==> Shown()
    {
      hide Tame, Run, Shows, Settled, Fresh, PromptCells;
      if !ready {
        return;
      }
      pending := pending + data;
      var decoded := Utf8.Decode(pending);
      if decoded.None? {
        if |pending| > 8 {
          pending := [];
        }
        return;
      }
      pending := [];
      EnterText(decoded.value);
    }
  }

  /** The key at position `i` of the input. */
  lemma KeyAt(env: Env, s: Shell, text: string, i: nat)
    requires i < |text|
    ensures Entered(env, s, text[i..]) ==
            if text[i] == ESC && i + 1 < |text| && text[i + 1] == '['
            then Entered(env, Steered(s, text[i + 2..Min(i + 3, |text|)]), text[Min(i + 3, |text|)..])
            else Entered(env, Typed(env, s, text[i]), text[i + 1..])
  {
    hide Entered, Typed, Steered;
    var rest := text[i..];
    EnteredFirst(env, s, rest);
    if StartsSequence(rest) {
      assert rest[2..Min(3, |rest|)] == text[i + 2..Min(i + 3, |text|)];
      assert rest[Min(3, |rest|)..] == text[Min(i + 3, |text|)..];
    } else {
      assert rest[1..] == text[i + 1..];
    }
  }

  // ---------------------------------------------------------------------------
  // Whole sessions

  /** The shell after a session of writes, each entering what it let decode. */
  function EnteredChunks(env: Env, s: Shell, chunks: seq<seq<Utf8.byte>>): Shell {
    if chunks == [] then s
    else
      Entered(env, EnteredChunks(env, s, chunks[..|chunks| - 1]), DecodedBy(chunks, |chunks| - 1))
  }

  /** One power-on session: boot, then any writes, cut anywhere. At the end, as
      after every prefix, the screen shows exactly the line being edited. */
  method Session(env: Env, name: string, bootLines: seq<Item>, chunks: seq<seq<Utf8.byte>>)
    returns (vm: MockVM)
    requires Glyphs(name) && WellFormed(bootLines)
    ensures fresh(vm) && vm.env == env && vm.Consistent() && vm.Shown()
    ensures vm.pending == Utf8.AbsorbAll(chunks).held
    ensures vm.State() == EnteredChunks(env, Shell(EMPTY, [], 0, "/root", 0), chunks)
  {
    hide Tame, Run, Shows, Settled, Fresh, Entered, Utf8.Absorb;
    vm := new MockVM(env, name);
    vm.Boot(bootLines);
    assert vm.State() == Shell(EMPTY, [], 0, "/root", 0);
    assert chunks[..0] == [];
    for k := 0 to |chunks|
      invariant vm.Consistent() && vm.ready && vm.Shown()
      invariant vm.pending == Utf8.AbsorbAll(chunks[..k]).held
      invariant vm.State() == EnteredChunks(env, Shell(EMPTY, [], 0, "/root", 0), chunks[..k])
    {
      assert chunks[..k + 1][..k] == chunks[..k];
      vm.Write(chunks[k]);
    }
    assert chunks[..|chunks|] == chunks;
  }

  /** The keys of a session of writes, each reading what it let decode. */
  function KeysRead(chunks: seq<seq<Utf8.byte>>): seq<Key> {
    if chunks == [] then [] else KeysRead(chunks[..|chunks| - 1]) + Keys(DecodedBy(chunks, |chunks| - 1))
  }

  /** What write `k` let decode. */
  function DecodedBy(chunks: seq<seq<Utf8.byte>>, k: nat): string
    requires k < |chunks|
  {
    Utf8.Absorb(Utf8.AbsorbAll(chunks[..k]).held, chunks[k]).text
  }

  /** No cut of the session falls inside a cursor key. */
  ghost predicate KeysWhole(chunks: seq<seq<Utf8.byte>>) {
    forall k: nat :: k < |chunks| ==> CutBetweenKeys(Utf8.AbsorbAll(chunks[..k]).text, DecodedBy(chunks, k))
  }

  lemma KeysWholeStep(chunks: seq<seq<Utf8.byte>>)
    requires chunks != []
    ensures var n := |chunks| - 1;
            KeysWhole(chunks) <==>
            KeysWhole(chunks[..n]) && CutBetweenKeys(Utf8.AbsorbAll(chunks[..n]).text, DecodedBy(chunks, n))
  {
    hide CutBetweenKeys;
    var front := chunks[..|chunks| - 1];
    forall k: nat | k < |front|
      ensures front[..k] == chunks[..k] && DecodedBy(front, k) == DecodedBy(chunks, k)
    {
      assert front[..k] == chunks[..k];
    }
  }

  /** A session with a key cut in two is read differently from its text, whatever follows. */
  lemma {:induction false} CutKeyShows(chunks: seq<seq<Utf8.byte>>, more: string)
    requires !KeysWhole(chunks)
    ensures !(KeysRead(chunks) <= Keys(Utf8.AbsorbAll(chunks).text + more))
  {
    hide KeysWhole, CutBetweenKeys, Keys, Utf8.Absorb;
    assert chunks != [] by { NothingToCut(chunks); }
    var n := |chunks| - 1;
    var front, text, last := chunks[..n], Utf8.AbsorbAll(chunks[..n]).text, DecodedBy(chunks, n);
    KeysWholeStep(chunks);
    Associative(text, last, more);
    if KeysWhole(front) {
      CuttingInvisibleIff(front);
      CutBeforeFirst(text, last, more) by {
        assert last != "" by { NothingCut(text, last); }
      }
      KeysPrefixIff(text, last + more);
    } else {
      CutKeyShows(front, last + more);
    }
  }

  lemma NothingToCut(chunks: seq<seq<Utf8.byte>>)
    requires !KeysWhole(chunks)
    ensures chunks != []
  {
  }

  lemma NothingCut(a: string, b: string)
    requires !CutBetweenKeys(a, b)
    ensures b != ""
  {
  }

  /** The writes of a session are read as their whole text in one write exactly when no
      cut falls inside a cursor key. */
  lemma {:induction false} CuttingInvisibleIff(chunks: seq<seq<Utf8.byte>>)
    ensures KeysRead(chunks) == Keys(Utf8.AbsorbAll(chunks).text) <==> KeysWhole(chunks)
  {
    hide KeysWhole, CutBetweenKeys, Keys, Utf8.Absorb;
    if !KeysWhole(chunks) {
      CutKeyShows(chunks, "");
      assert Utf8.AbsorbAll(chunks).text + "" == Utf8.AbsorbAll(chunks).text;
    } else if chunks == [] {
      NoKeys();
    } else {
      var n := |chunks| - 1;
      KeysWholeStep(chunks);
      CuttingInvisibleIff(chunks[..n]);
      KeysPrefixIff(Utf8.AbsorbAll(chunks[..n]).text, DecodedBy(chunks, n));
    }
  }

  lemma {:induction false} EnteredChunksPresses(env: Env, s: Shell, chunks: seq<seq<Utf8.byte>>)
    ensures EnteredChunks(env, s, chunks) == PressedAll(env, s, KeysRead(chunks))
  {
    hide Keys, Utf8.Absorb;
    if chunks != [] {
      var n := |chunks| - 1;
      EnteredChunksPresses(env, s, chunks[..n]);
      PressedAllConcat(env, s, KeysRead(chunks[..n]), Keys(DecodedBy(chunks, n)));
    }
  }

  /** So how the bytes were cut is invisible when no cursor key was cut. */
  lemma CuttingInvisible(env: Env, s: Shell, chunks: seq<seq<Utf8.byte>>)
    requires KeysWhole(chunks)
    ensures EnteredChunks(env, s, chunks) == Entered(env, s, Utf8.AbsorbAll(chunks).text)
  {
    hide KeysWhole;
    CuttingInvisibleIff(chunks);
    EnteredChunksPresses(env, s, chunks);
  }

  /** Sent a byte at a time, any text without cursor keys arrives whole. */
  lemma TextArrives(env: Env, s: Shell, text: string)
    requires ESC !in text
    ensures EnteredChunks(env, s, Utf8.Bytewise(Utf8.Encode(text))) == Entered(env, s, text)
  {
    var b := Utf8.Encode(text);
    var chunks := Utf8.Bytewise(b);
    Utf8.BytewiseDecodesAll(text);
    forall k: nat | k < |chunks|
      ensures CutBetweenKeys(Utf8.AbsorbAll(chunks[..k]).text, DecodedBy(chunks, k))
    {
      TextPrefix(b, k, text);
      NoKeysToCut(Utf8.AbsorbAll(chunks[..k]).text, DecodedBy(chunks, k));
    }
    CuttingInvisible(env, s, chunks);
  }

  lemma TextPrefix(b: seq<Utf8.byte>, k: nat, text: string)
    requires b == Utf8.Encode(text) && k <= |b|
    ensures Utf8.AbsorbAll(Utf8.Bytewise(b)[..k]).text <= text
  {
    assert Utf8.Bytewise(b)[..k] == Utf8.Bytewise(b[..k]);
    assert b[..k] + b[k..] == b;
    Utf8.BytewiseNeverDrops(b[..k], b[k..], text);
    Utf8.ConcatBytewise(b[..k]);
    Utf8.HeldStartsOnBoundary(Utf8.Bytewise(b[..k]), b[k..], text);
  }

  lemma {:induction false} NoKeysToCut(a: string, b: string)
    requires ESC !in a
    ensures CutBetweenKeys(a, b)
    decreases a
  {
    if a != "" {
      NoKeysToCut(a[1..], b);
    }
  }
}

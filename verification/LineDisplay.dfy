/** What the shell draws for its input line: a full repaint, and the cheap echoes
    that stand in for one. Every lemma is about the screen after the output. */
module LineDisplay {
  import opened Terminal
  import Decimal

  const RUB_OUT := "\U{08} \U{08}"
  const RIGHT := Sequence("", 'C')
  const LEFT := Sequence("", 'D')
  const CLEAR_LINE := Sequence("", 'K')

  function PromptPieces(name: string, cwd: string): seq<Piece> {
    [Colour("1;38;5;48", "root@" + name), Colour("97", ":"), Colour("1;38;5;75", cwd), Colour("97", "# ")]
  }

  function Prompt(name: string, cwd: string): string {
    RenderPieces(PromptPieces(name, cwd))
  }

  function PromptCells(name: string, cwd: string): string {
    Cells(PromptPieces(name, cwd))
  }

  lemma PromptCellsAre(name: string, cwd: string)
    ensures PromptCells(name, cwd) == "root@" + name + ":" + cwd + "# "
  {
    var p := PromptPieces(name, cwd);
    assert p[1..][1..] == p[2..] && p[2..][1..] == p[3..] && p[3..][1..] == p[4..] == [];
    assert Cells(p[3..]) == "# " + Cells(p[4..]) == "# ";
    assert Cells(p[2..]) == cwd + Cells(p[3..]);
    assert Cells(p[1..]) == ":" + Cells(p[2..]);
  }

  lemma PromptAppends(name: string, cwd: string)
    requires Glyphs(name) && Glyphs(cwd)
    ensures Appends(Prompt(name, cwd), PromptCells(name, cwd))
  {
    PiecesAppend(PromptPieces(name, cwd));
  }

  /** Carriage return, clear to the end of the row, prompt and line. */
  function Painting(name: string, cwd: string, line: string): string {
    "\r" + CLEAR_LINE + (Prompt(name, cwd) + line)
  }

  /** Parking the cursor `back` characters before the end of the line. */
  function Parking(back: nat): string {
    if back > 0 then Sequence(Decimal.Render(back), 'D') else ""
  }

  /** The full repaint of a line with the cursor `pos` characters into it. */
  function Repaint(name: string, cwd: string, line: string, pos: nat): string
    requires pos <= |line|
  {
    Painting(name, cwd, line) + Parking(|line| - pos)
  }

  // ---------------------------------------------------------------------------
  // The screens the shell leaves behind

  /** Between control sequences, with nothing written below the cursor's row. */
  predicate Settled(t: Screen) {
    && Valid(t) && t.mode == Ground
    && (forall j :: t.y < j < |t.lines| ==> t.lines[j] == "")
  }

  /** The cursor's row is the prompt and the line, the cursor `pos` into the line. */
  ghost predicate Shows(t: Screen, prompt: string, line: string, pos: nat) {
    && Settled(t)
    && pos <= |line|
    && t.x == |prompt| + pos
    && SameRow(Row(t), prompt + line)
  }

  /** `r` differs from `t` at most in the contents of the cursor's row and in the column. */
  predicate OnlyRow(t: Screen, r: Screen) {
    && Valid(t) && Valid(r) && r.mode == Ground
    && r.y == t.y && |r.lines| == |t.lines|
    && (forall j :: 0 <= j < |t.lines| && j != t.y ==> r.lines[j] == t.lines[j])
  }

  /** `r` is one row further down, and everything above the row left behind is unchanged. */
  predicate NextRow(t: Screen, r: Screen) {
    && Valid(t) && Valid(r) && r.y == t.y + 1
    && (forall j :: 0 <= j < t.y ==> r.lines[j] == t.lines[j])
  }

  /** Two screens a viewer cannot tell apart. */
  ghost predicate SameLook(a: Screen, b: Screen) {
    && a.y == b.y && a.x == b.x && a.mode == b.mode && |a.lines| == |b.lines|
    && (forall j :: 0 <= j < |a.lines| ==> SameRow(a.lines[j], b.lines[j]))
  }

  lemma SameShowSameLook(t: Screen, a: Screen, b: Screen, prompt: string, line: string, pos: nat)
    requires OnlyRow(t, a) && OnlyRow(t, b)
    requires Shows(a, prompt, line, pos) && Shows(b, prompt, line, pos)
    ensures SameLook(a, b)
  {
    assert SameRow(Row(a), Row(b));
  }

  // ---------------------------------------------------------------------------
  // Prompt and repaint

  /** A prompt on a fresh row shows the empty line, and a kept one only if it is invisible. */
  lemma PromptShows(t: Screen, name: string, cwd: string, line: string, pos: nat)
    requires Fresh(t) && Glyphs(name) && Glyphs(cwd) && pos <= |line|
    ensures var r := Run(t, Prompt(name, cwd));
            && Settled(r) && OnlyRow(t, r)
            && (Shows(r, PromptCells(name, cwd), line, pos) <==> pos == 0 && line == Blanks(|line|))
  {
    var r, p := Run(t, Prompt(name, cwd)), PromptCells(name, cwd);
    PromptAppends(name, cwd);
    assert Row(t) == "" && "" + p == p;
    assert r == Extend(t, p);
    if pos == 0 && line == Blanks(|line|) {
      assert SameRow(p, p + line);
    }
    if SameRow(p, p + line) {
      forall i | 0 <= i < |line| ensures line[i] == ' ' {
        assert Cell(p, |p| + i) == Cell(p + line, |p| + i);
      }
    }
  }

  lemma ClearLineClears(t: Screen)
    requires Valid(t) && t.mode == Ground
    ensures Run(t, "\r" + CLEAR_LINE) == SetRow(t.(x := 0), "")
  {
    hide Run;
    var home := t.(x := 0);
    RunOne(t, '\r');
    RunSequence(home, "", 'K');
    assert Row(home)[..0] == "";
    RunConcat(t, "\r", CLEAR_LINE);
  }

  function Painted(t: Screen, cells: string): Screen
    requires Valid(t)
  {
    SetRow(t, cells).(x := |cells|)
  }

  /** Repainting up to, and not including, the parking of the cursor. */
  lemma LinePainted(t: Screen, name: string, cwd: string, line: string)
    requires Valid(t) && t.mode == Ground && Glyphs(name) && Glyphs(cwd) && Glyphs(line)
    ensures Run(t, Painting(name, cwd, line)) == Painted(t, PromptCells(name, cwd) + line)
  {
    var p := PromptCells(name, cwd);
    var clear := SetRow(t.(x := 0), "");
    ClearLineClears(t);
    PromptAppends(name, cwd);
    GlyphsAppend(line);
    AppendsConcat(Prompt(name, cwd), p, line, line);
    assert "" + (p + line) == p + line;
    RunConcat(t, "\r" + CLEAR_LINE, Prompt(name, cwd) + line);
    assert Run(clear, Prompt(name, cwd) + line) == Extend(clear, p + line);
  }

  lemma CursorParks(t: Screen, back: nat)
    requires Valid(t) && t.mode == Ground && back <= t.x
    ensures Run(t, Parking(back)) == t.(x := t.x - back)
  {
    if back > 0 {
      Decimal.ParseRender(back);
      RunSequence(t, Decimal.Render(back), 'D');
    }
  }

  lemma RunRepaint(t: Screen, name: string, cwd: string, line: string, pos: nat)
    requires Valid(t) && t.mode == Ground && Glyphs(name) && Glyphs(cwd) && Glyphs(line) && pos <= |line|
    ensures var cells := PromptCells(name, cwd);
            Run(t, Repaint(name, cwd, line, pos)) == SetRow(t, cells + line).(x := |cells| + pos)
  {
    var cells := PromptCells(name, cwd);
    LinePainted(t, name, cwd, line);
    CursorParks(Painted(t, cells + line), |line| - pos);
    RunConcat(t, Painting(name, cwd, line), Parking(|line| - pos));
  }

  /** After a repaint the row shows the line, wherever the cursor and whatever the row was. */
  lemma RepaintShows(t: Screen, name: string, cwd: string, line: string, pos: nat)
    requires Settled(t) && Glyphs(name) && Glyphs(cwd) && Glyphs(line) && pos <= |line|
    ensures var r := Run(t, Repaint(name, cwd, line, pos));
            OnlyRow(t, r) && Shows(r, PromptCells(name, cwd), line, pos)
  {
    RunRepaint(t, name, cwd, line, pos);
  }

  // ---------------------------------------------------------------------------
  // Cheap echoes

  lemma EchoShows(t: Screen, prompt: string, line: string, ch: char)
    requires Shows(t, prompt, line, |line|) && !IsControl(ch)
    ensures OnlyRow(t, Run(t, [ch])) && Shows(Run(t, [ch]), prompt, line + [ch], |line| + 1)
  {
    RunOne(t, ch);
    var r := Put(Row(t), t.x, ch);
    forall i: nat ensures Cell(r, i) == Cell(prompt + (line + [ch]), i) {
      assert Cell(Row(t), i) == Cell(prompt + line, i);
    }
  }

  lemma RubOutShows(t: Screen, prompt: string, line: string)
    requires line != "" && Shows(t, prompt, line, |line|)
    ensures var r := Run(t, RUB_OUT);
            OnlyRow(t, r) && Shows(r, prompt, line[..|line| - 1], |line| - 1)
  {
    var back := t.(x := t.x - 1);
    var r := Put(Row(t), t.x - 1, ' ');
    var rubbed := SetRow(back, r).(x := t.x);
    RunTwo(t, '\U{08}', ' ');
    RunConcat(t, ['\U{08}', ' '], ['\U{08}']);
    assert RUB_OUT == ['\U{08}', ' '] + ['\U{08}'];
    RunOne(rubbed, '\U{08}');
    forall i: nat ensures Cell(r, i) == Cell(prompt + line[..|line| - 1], i) {
      assert Cell(Row(t), i) == Cell(prompt + line, i);
    }
  }

  lemma RightShows(t: Screen, prompt: string, line: string, pos: nat)
    requires pos < |line| && Shows(t, prompt, line, pos)
    ensures OnlyRow(t, Run(t, RIGHT)) && Shows(Run(t, RIGHT), prompt, line, pos + 1)
  {
    RunSequence(t, "", 'C');
  }

  lemma LeftShows(t: Screen, prompt: string, line: string, pos: nat)
    requires 0 < pos && Shows(t, prompt, line, pos)
    ensures OnlyRow(t, Run(t, LEFT)) && Shows(Run(t, LEFT), prompt, line, pos - 1)
  {
    RunSequence(t, "", 'D');
  }

  /** The edits that get a cheap echo, each where the shell may use it. */
  datatype Edit = Append(ch: char) | RubLast | StepRight | StepLeft

  predicate Cheap(e: Edit, line: string, pos: nat) {
    match e
    case Append(ch) => pos == |line| && !IsControl(ch)
    case RubLast => 0 < pos == |line|
    case StepRight => pos < |line|
    case StepLeft => 0 < pos <= |line|
  }

  function Echo(e: Edit): string {
    match e
    case Append(ch) => [ch]
    case RubLast => RUB_OUT
    case StepRight => RIGHT
    case StepLeft => LEFT
  }

  function EditedLine(e: Edit, line: string): string
    requires e.RubLast? ==> line != ""
  {
    match e
    case Append(ch) => line + [ch]
    case RubLast => line[..|line| - 1]
    case StepRight => line
    case StepLeft => line
  }

  function EditedPos(e: Edit, pos: nat): int {
    if e.Append? || e.StepRight? then pos + 1 else pos - 1
  }

  /** A cheap echo keeps a right screen right. */
  lemma EchoKeepsShown(t: Screen, prompt: string, line: string, pos: nat, e: Edit)
    requires Shows(t, prompt, line, pos) && Cheap(e, line, pos)
    ensures OnlyRow(t, Run(t, Echo(e)))
    ensures Shows(Run(t, Echo(e)), prompt, EditedLine(e, line), EditedPos(e, pos))
  {
    match e {
      case Append(ch) => EchoShows(t, prompt, line, ch);
      case RubLast => RubOutShows(t, prompt, line);
      case StepRight => RightShows(t, prompt, line, pos);
      case StepLeft => LeftShows(t, prompt, line, pos);
    }
  }

  /** Wherever the shell sends a cheap echo, the whole screen ends up looking as
      if it had repainted the edited line. */
  lemma EchoRefinesRepaint(t: Screen, name: string, cwd: string, line: string, pos: nat, e: Edit)
    requires Glyphs(name) && Glyphs(cwd) && Glyphs(line)
    requires Shows(t, PromptCells(name, cwd), line, pos)
    requires Cheap(e, line, pos)
    ensures SameLook(Run(t, Echo(e)), Run(t, Repaint(name, cwd, EditedLine(e, line), EditedPos(e, pos))))
  {
    var p := PromptCells(name, cwd);
    EchoKeepsShown(t, p, line, pos, e);
    var line', pos' := EditedLine(e, line), EditedPos(e, pos);
    assert Glyphs(line');
    RepaintShows(t, name, cwd, line', pos');
    SameShowSameLook(t, Run(t, Echo(e)), Run(t, Repaint(name, cwd, line', pos')), p, line', pos');
  }

  // ---------------------------------------------------------------------------
  // Leaving the row

  /** Coloured text written anywhere in the row stays in the row. */
  lemma {:induction false} GlyphsStayInRow(t: Screen, s: string)
    requires Valid(t) && t.mode == Ground && Glyphs(s)
    ensures OnlyRow(t, Run(t, s))
    decreases s
  {
    if s != "" {
      assert !IsControl(s[0]);
      GlyphsStayInRow(Feed(t, s[0]), s[1..]);
    }
  }

  /** No cheap echo unsettles a screen, even one that does not show the line. */
  lemma EchoStaysInRow(t: Screen, e: Edit)
    requires Settled(t) && (e.Append? ==> !IsControl(e.ch))
    ensures OnlyRow(t, Run(t, Echo(e))) && Settled(Run(t, Echo(e)))
  {
    match e {
      case Append(ch) => RunOne(t, ch);
      case RubLast =>
        RunTwo(t, '\U{08}', ' ');
        RunConcat(t, ['\U{08}', ' '], ['\U{08}']);
        assert RUB_OUT == ['\U{08}', ' '] + ['\U{08}'];
        RunOne(Feed(Feed(t, '\U{08}'), ' '), '\U{08}');
      case StepRight => RunSequence(t, "", 'C');
      case StepLeft => RunSequence(t, "", 'D');
    }
  }

  /** The interrupt echo "^C" and a line end lead to a fresh row. */
  lemma InterruptFreshens(t: Screen)
    requires Settled(t)
    ensures Fresh(Run(t, Coloured("90", "^C") + "\r\n"))
    ensures NextRow(t, Run(t, Coloured("90", "^C") + "\r\n"))
  {
    var on := Sequence("90", 'm');
    var off := Sequence("0", 'm');
    RunSequence(t, "90", 'm');
    GlyphsStayInRow(t, "^C");
    RunSequence(Run(t, "^C"), "0", 'm');
    RunConcat(t, on, "^C");
    RunConcat(t, on + "^C", off);
    var written := Run(t, "^C");
    assert Run(t, Coloured("90", "^C")) == written;
    RunConcat(t, Coloured("90", "^C"), "\r\n");
    RunLineEnd(written);
  }
}

/** The part of a terminal the shell relies on: rows of one-cell characters, a
    cursor, and a reader for control sequences. Rows are unbounded: no wrapping. */
module Terminal {
  import Decimal

  const ESC := '\U{1B}'

  /** Where the reader of control sequences is. */
  datatype Mode = Ground | Escape | Csi(params: string)

  datatype Screen = Screen(lines: seq<string>, y: nat, x: nat, mode: Mode)

  const BLANK := Screen([""], 0, 0, Ground)

  predicate IsControl(c: char) {
    c < ' ' || '\U{7F}' <= c < '\U{A0}'
  }

  predicate Glyphs(s: string) {
    forall i :: 0 <= i < |s| ==> !IsControl(s[i])
  }

  predicate IsParam(c: char) {
    '0' <= c <= '?'
  }

  predicate AllParams(s: string) {
    forall i :: 0 <= i < |s| ==> IsParam(s[i])
  }

  predicate Valid(t: Screen) {
    t.y < |t.lines|
  }

  function Row(t: Screen): string
    requires Valid(t)
  {
    t.lines[t.y]
  }

  // ---------------------------------------------------------------------------
  // Cells of a row

  function Cell(row: string, i: nat): char {
    if i < |row| then row[i] else ' '
  }

  /** Two rows look the same: trailing blanks do not show. */
  ghost predicate SameRow(a: string, b: string) {
    forall i: nat :: Cell(a, i) == Cell(b, i)
  }

  function Blanks(n: nat): string {
    seq(n, _ => ' ')
  }

  function Put(row: string, x: nat, c: char): (r: string)
    ensures forall i: nat :: Cell(r, i) == if i == x then c else Cell(row, i)
  {
    if x < |row| then row[x := c] else row + Blanks(x - |row|) + [c]
  }

  // ---------------------------------------------------------------------------
  // Interpreting output

  function SetRow(t: Screen, row: string): Screen
    requires Valid(t)
  {
    t.(lines := t.lines[t.y := row])
  }

  function NewLine(t: Screen): (r: Screen)
    requires Valid(t)
    ensures Valid(r)
  {
    t.(lines := if t.y + 1 == |t.lines| then t.lines + [""] else t.lines, y := t.y + 1)
  }

  /** The count of a cursor movement: one unless a number is given. */
  function Count(params: string): nat {
    if params != "" && Decimal.AllDigits(params) then Decimal.Parse(params) else 1
  }

  function Dispatch(t: Screen, params: string, final: char): (r: Screen)
    requires Valid(t)
    ensures Valid(r)
  {
    if final == 'C' then t.(x := t.x + Count(params))
    else if final == 'D' then t.(x := if Count(params) <= t.x then t.x - Count(params) else 0)
    else if final == 'K' && params == "" then
      SetRow(t, if t.x < |Row(t)| then Row(t)[..t.x] else Row(t))
    else if final == 'J' && params == "2" then t.(lines := seq(|t.lines|, _ => ""))
    else if final == 'H' && params == "" then t.(y := 0, x := 0)
    else t
  }

  function Feed(t: Screen, c: char): (r: Screen)
    requires Valid(t)
    ensures Valid(r)
  {
    match t.mode
    case Ground =>
      if c == ESC then t.(mode := Escape)
      else if c == '\r' then t.(x := 0)
      else if c == '\n' then NewLine(t)
      else if c == '\U{08}' then t.(x := if t.x == 0 then 0 else t.x - 1)
      else if IsControl(c) then t
      else SetRow(t, Put(Row(t), t.x, c)).(x := t.x + 1)
    case Escape =>
      t.(mode := if c == '[' then Csi("") else Ground)
    case Csi(params) =>
      if IsParam(c) then t.(mode := Csi(params + [c]))
      else if '@' <= c <= '~' then Dispatch(t.(mode := Ground), params, c)
      else t.(mode := Ground)
  }

  function Run(t: Screen, s: string): (r: Screen)
    requires Valid(t)
    ensures Valid(r)
    decreases s
  {
    if s == "" then t else Run(Feed(t, s[0]), s[1..])
  }

  lemma {:induction false} RunConcat(t: Screen, a: string, b: string)
    requires Valid(t)
    ensures Run(t, a + b) == Run(Run(t, a), b)
    decreases a
  {
    if a == "" {
      assert a + b == b;
    } else {
      RunConcat(Feed(t, a[0]), a[1..], b);
      assert (a + b)[1..] == a[1..] + b;
    }
  }

  // ---------------------------------------------------------------------------
  // Control sequences

  function Sequence(params: string, final: char): string {
    [ESC, '['] + params + [final]
  }

  lemma {:induction false} ReadParams(t: Screen, seen: string, rest: string)
    requires Valid(t) && AllParams(rest) && t.mode == Csi(seen)
    ensures Run(t, rest) == t.(mode := Csi(seen + rest))
    decreases rest
  {
    if rest == "" {
      assert seen + rest == seen;
    } else {
      ReadParams(Feed(t, rest[0]), seen + [rest[0]], rest[1..]);
      assert seen + [rest[0]] + rest[1..] == seen + rest;
    }
  }

  lemma RunSequence(t: Screen, params: string, final: char)
    requires Valid(t) && t.mode == Ground && AllParams(params) && '@' <= final <= '~'
    ensures Run(t, Sequence(params, final)) == Dispatch(t, params, final)
  {
    var intro := t.(mode := Csi(""));
    RunTwo(t, ESC, '[');
    ReadParams(intro, "", params);
    assert "" + params == params;
    RunConcat(intro, params, [final]);
    RunConcat(t, [ESC, '['], params + [final]);
    assert [ESC, '['] + (params + [final]) == Sequence(params, final);
    RunOne(Run(intro, params), final);
  }

  lemma RunOne(t: Screen, c: char)
    requires Valid(t)
    ensures Run(t, [c]) == Feed(t, c)
  {
    assert [c][1..] == "";
    assert Run(Feed(t, c), "") == Feed(t, c);
  }

  lemma RunTwo(t: Screen, c: char, d: char)
    requires Valid(t)
    ensures Run(t, [c, d]) == Feed(Feed(t, c), d)
  {
    RunConcat(t, [c], [d]);
    assert [c] + [d] == [c, d];
    RunOne(t, c);
    RunOne(Feed(t, c), d);
  }

  // ---------------------------------------------------------------------------
  // Text that only extends the current row

  predicate AtRowEnd(t: Screen) {
    Valid(t) && t.mode == Ground && t.x == |Row(t)|
  }

  function Extend(t: Screen, cells: string): (r: Screen)
    requires AtRowEnd(t)
    ensures AtRowEnd(r)
  {
    SetRow(t, Row(t) + cells).(x := t.x + |cells|)
  }

  lemma ExtendExtend(t: Screen, c1: string, c2: string)
    requires AtRowEnd(t)
    ensures Extend(Extend(t, c1), c2) == Extend(t, c1 + c2)
    ensures Extend(t, "") == t
  {
    assert Row(t) + c1 + c2 == Row(t) + (c1 + c2);
    assert Row(t) + "" == Row(t);
  }

  /** Output `s`, written at the end of a row, appends exactly `cells` to it. */
  ghost predicate Appends(s: string, cells: string) {
    forall t: Screen {:trigger Run(t, s)} :: AtRowEnd(t) ==> Run(t, s) == Extend(t, cells)
  }

  lemma {:induction false} GlyphsAppendTo(t: Screen, s: string)
    requires AtRowEnd(t) && Glyphs(s)
    ensures Run(t, s) == Extend(t, s)
    decreases s
  {
    if s == "" {
      ExtendExtend(t, "", "");
    } else {
      assert !IsControl(s[0]);
      assert Put(Row(t), t.x, s[0]) == Row(t) + [s[0]];
      assert Feed(t, s[0]) == Extend(t, [s[0]]);
      GlyphsAppendTo(Feed(t, s[0]), s[1..]);
      ExtendExtend(t, [s[0]], s[1..]);
      assert [s[0]] + s[1..] == s;
    }
  }

  lemma GlyphsAppend(s: string)
    requires Glyphs(s)
    ensures Appends(s, s)
  {
    forall t: Screen | AtRowEnd(t) ensures Run(t, s) == Extend(t, s) {
      GlyphsAppendTo(t, s);
    }
  }

  lemma AppendsConcat(s1: string, c1: string, s2: string, c2: string)
    requires Appends(s1, c1) && Appends(s2, c2)
    ensures Appends(s1 + s2, c1 + c2)
  {
    forall t: Screen | AtRowEnd(t) ensures Run(t, s1 + s2) == Extend(t, c1 + c2) {
      RunConcat(t, s1, s2);
      ExtendExtend(t, c1, c2);
    }
  }

  /** Text wrapped in a colour: the shell's helper _c. */
  function Coloured(code: string, text: string): string {
    Sequence(code, 'm') + text + Sequence("0", 'm')
  }

  lemma ColouredAppends(code: string, text: string)
    requires AllParams(code) && Glyphs(text)
    ensures Appends(Coloured(code, text), text)
  {
    SgrSilent(code);
    SgrSilent("0");
    GlyphsAppend(text);
    AppendsConcat(Sequence(code, 'm'), "", text, text);
    AppendsConcat(Sequence(code, 'm') + text, "" + text, Sequence("0", 'm'), "");
    assert "" + text + "" == text;
  }

  lemma SgrSilent(code: string)
    requires AllParams(code)
    ensures Appends(Sequence(code, 'm'), "")
  {
    forall t: Screen | AtRowEnd(t) ensures Run(t, Sequence(code, 'm')) == Extend(t, "") {
      RunSequence(t, code, 'm');
      ExtendExtend(t, "", "");
    }
  }

  // ---------------------------------------------------------------------------
  // Whole lines

  /** Nothing has been written at or below the cursor, which is at a row's start. */
  predicate Fresh(t: Screen) {
    && Valid(t) && t.mode == Ground && t.x == 0
    && (forall j :: t.y <= j < |t.lines| ==> t.lines[j] == "")
  }

  /** A piece of output: coloured text, plain text, a line end or a cleared screen. */
  datatype Piece = Colour(code: string, text: string) | Plain(text: string)

  datatype Item = Line(pieces: seq<Piece>) | Clear

  predicate WellFormedPiece(p: Piece) {
    Glyphs(p.text) && (p.Colour? ==> AllParams(p.code))
  }

  predicate WellFormed(items: seq<Item>) {
    forall i :: 0 <= i < |items| && items[i].Line? ==>
      forall j :: 0 <= j < |items[i].pieces| ==> WellFormedPiece(items[i].pieces[j])
  }

  function RenderPieces(pieces: seq<Piece>): string {
    if pieces == [] then ""
    else (match pieces[0]
          case Colour(code, text) => Coloured(code, text)
          case Plain(text) => text) + RenderPieces(pieces[1..])
  }

  function Cells(pieces: seq<Piece>): string {
    if pieces == [] then "" else pieces[0].text + Cells(pieces[1..])
  }

  const CLEAR_HOME := Sequence("2", 'J') + Sequence("", 'H')

  function RenderItem(item: Item): string {
    match item
    case Line(pieces) => RenderPieces(pieces) + "\r\n"
    case Clear => CLEAR_HOME
  }

  function Render(items: seq<Item>): string {
    if items == [] then "" else RenderItem(items[0]) + Render(items[1..])
  }

  lemma {:induction false} PiecesAppend(pieces: seq<Piece>)
    requires forall j :: 0 <= j < |pieces| ==> WellFormedPiece(pieces[j])
    ensures Appends(RenderPieces(pieces), Cells(pieces))
  {
    if pieces == [] {
      GlyphsAppend("");
    } else {
      var p := pieces[0];
      assert WellFormedPiece(p);
      if p.Colour? {
        ColouredAppends(p.code, p.text);
        AppendsConcat(Coloured(p.code, p.text), p.text, RenderPieces(pieces[1..]), Cells(pieces[1..])) by {
          PiecesAppend(pieces[1..]);
        }
      } else {
        GlyphsAppend(p.text);
        AppendsConcat(p.text, p.text, RenderPieces(pieces[1..]), Cells(pieces[1..])) by {
          PiecesAppend(pieces[1..]);
        }
      }
    }
  }

  lemma RunClearHome(t: Screen)
    requires Valid(t) && t.mode == Ground
    ensures Run(t, CLEAR_HOME) == Screen(seq(|t.lines|, _ => ""), 0, 0, Ground)
  {
    RunSequence(t, "2", 'J');
    RunSequence(Dispatch(t, "2", 'J'), "", 'H');
    RunConcat(t, Sequence("2", 'J'), Sequence("", 'H'));
  }

  /** A line end below which nothing is written leads to a fresh row. */
  lemma RunLineEnd(t: Screen)
    requires Valid(t) && t.mode == Ground
    requires forall j :: t.y < j < |t.lines| ==> t.lines[j] == ""
    ensures Fresh(Run(t, "\r\n"))
    ensures Run(t, "\r\n") == NewLine(t.(x := 0))
  {
    RunTwo(t, '\r', '\n');
    assert "\r\n" == ['\r', '\n'];
  }

  lemma RenderItemStaysFresh(t: Screen, item: Item)
    requires Fresh(t) && WellFormed([item])
    ensures Fresh(Run(t, RenderItem(item)))
  {
    if item.Line? {
      assert [item][0] == item;
      PiecesAppend(item.pieces);
      RunConcat(t, RenderPieces(item.pieces), "\r\n");
      RunLineEnd(Run(t, RenderPieces(item.pieces)));
    } else {
      RunClearHome(t);
    }
  }

  lemma {:induction false} RenderStaysFresh(t: Screen, items: seq<Item>)
    requires Fresh(t) && WellFormed(items)
    ensures Fresh(Run(t, Render(items)))
    decreases items
  {
    if items != [] {
      RunConcat(t, RenderItem(items[0]), Render(items[1..]));
      RenderItemStaysFresh(t, items[0]);
      RenderStaysFresh(Run(t, RenderItem(items[0])), items[1..]);
    }
  }
}

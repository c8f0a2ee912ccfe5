/** Output in which every control sequence is complete and asks the terminal nothing. */
module QuietOutput {
  import Decimal
  import opened Terminal
  import opened LineDisplay

  /** From the reader's mode `mode` on, `s` completes every sequence, none of them with the
      finals n and c of a query. */
  predicate Quiet(mode: Mode, s: string)
    decreases s
  {
    if s == "" then mode == Ground
    else
      match mode
      case Ground => Quiet(if s[0] == ESC then Escape else Ground, s[1..])
      case Escape => s[0] == '[' && Quiet(Mode.Csi(""), s[1..])
      case Csi(_) =>
        if IsParam(s[0]) then Quiet(mode, s[1..])
        else '@' <= s[0] <= '~' && s[0] != 'n' && s[0] != 'c' && Quiet(Ground, s[1..])
  }

  predicate Tame(s: string) {
    Quiet(Ground, s)
  }

  lemma {:induction false} QuietConcat(mode: Mode, a: string, b: string)
    requires Quiet(mode, a) && Tame(b)
    ensures Quiet(mode, a + b)
    decreases a
  {
    if a == "" {
      assert a + b == b;
    } else {
      assert (a + b)[1..] == a[1..] + b;
      match mode
      case Ground => QuietConcat(if a[0] == ESC then Escape else Ground, a[1..], b);
      case Escape => QuietConcat(Mode.Csi(""), a[1..], b);
      case Csi(_) => QuietConcat(if IsParam(a[0]) then mode else Ground, a[1..], b);
    }
  }

  lemma TameConcat(a: string, b: string)
    requires Tame(a) && Tame(b)
    ensures Tame(a + b)
  {
    QuietConcat(Ground, a, b);
  }

  lemma {:induction false} TameText(s: string)
    requires forall i :: 0 <= i < |s| ==> s[i] != ESC
    ensures Tame(s)
    decreases s
  {
    if s != "" {
      TameText(s[1..]);
    }
  }

  lemma {:induction false} QuietParams(mode: Mode, params: string, final: char)
    requires mode.Csi? && AllParams(params) && '@' <= final <= '~' && final != 'n' && final != 'c'
    ensures Quiet(mode, params + [final])
    decreases params
  {
    if params == "" {
      assert params + [final] == [final] && [final][1..] == "";
    } else {
      assert (params + [final])[1..] == params[1..] + [final];
      QuietParams(mode, params[1..], final);
    }
  }

  lemma TameSequence(params: string, final: char)
    requires AllParams(params) && '@' <= final <= '~' && final != 'n' && final != 'c'
    ensures Tame(Sequence(params, final))
  {
    var s := Sequence(params, final);
    QuietParams(Mode.Csi(""), params, final);
    assert s[1..][1..] == params + [final] && s[1..][0] == '[';
  }

  lemma TameColoured(code: string, text: string)
    requires AllParams(code) && Glyphs(text)
    ensures Tame(Coloured(code, text))
  {
    TameSequence(code, 'm');
    TameText(text);
    TameSequence("0", 'm');
    TameConcat(Sequence(code, 'm'), text);
    TameConcat(Sequence(code, 'm') + text, Sequence("0", 'm'));
  }

  lemma {:induction false} TamePieces(pieces: seq<Piece>)
    requires forall j :: 0 <= j < |pieces| ==> WellFormedPiece(pieces[j])
    ensures Tame(RenderPieces(pieces))
  {
    hide Tame, Coloured;
    if pieces == [] {
      TameText("");
    } else {
      var p := pieces[0];
      assert WellFormedPiece(p);
      if p.Colour? {
        TameColoured(p.code, p.text);
      } else {
        TameText(p.text);
      }
      TamePieces(pieces[1..]);
      TameConcat(if p.Colour? then Coloured(p.code, p.text) else p.text, RenderPieces(pieces[1..]));
    }
  }

  lemma TameClearHome()
    ensures Tame(CLEAR_HOME)
  {
    TameSequence("2", 'J');
    TameSequence("", 'H');
    TameConcat(Sequence("2", 'J'), Sequence("", 'H'));
  }

  lemma {:induction false} TameRender(items: seq<Item>)
    requires WellFormed(items)
    ensures Tame(Render(items))
  {
    hide Tame, RenderPieces;
    if items == [] {
      TameText("");
    } else {
      if items[0].Line? {
        TamePieces(items[0].pieces);
        TameText("\r\n");
        TameConcat(RenderPieces(items[0].pieces), "\r\n");
      } else {
        TameClearHome();
      }
      TameRender(items[1..]);
      TameConcat(RenderItem(items[0]), Render(items[1..]));
    }
  }

  lemma TamePrompt(name: string, cwd: string)
    requires Glyphs(name) && Glyphs(cwd)
    ensures Tame(Prompt(name, cwd))
  {
    TamePieces(PromptPieces(name, cwd));
  }

  lemma TameRepaint(name: string, cwd: string, line: string, pos: nat)
    requires Glyphs(name) && Glyphs(cwd) && Glyphs(line) && pos <= |line|
    ensures Tame(Repaint(name, cwd, line, pos))
  {
    hide Tame, Prompt;
    TameText("\r");
    TameSequence("", 'K');
    TameConcat("\r", CLEAR_LINE);
    TamePrompt(name, cwd);
    TameText(line);
    TameConcat(Prompt(name, cwd), line);
    TameConcat("\r" + CLEAR_LINE, Prompt(name, cwd) + line);
    TameParking(|line| - pos);
    TameConcat(Painting(name, cwd, line), Parking(|line| - pos));
  }

  lemma TameParking(back: nat)
    ensures Tame(Parking(back))
  {
    hide Tame;
    if back > 0 {
      var digits := Decimal.Render(back);
      assert forall i :: 0 <= i < |digits| ==> Decimal.IsDigit(digits[i]);
      TameSequence(digits, 'D');
    } else {
      TameText("");
    }
  }

  lemma TameEcho(e: Edit)
    requires e.Append? ==> !IsControl(e.ch)
    ensures Tame(Echo(e))
  {
    hide Tame;
    match e
    case Append(ch) => TameText([ch]);
    case RubLast => TameText(RUB_OUT);
    case StepRight => TameSequence("", 'C');
    case StepLeft => TameSequence("", 'D');
  }

  lemma TameInterrupt()
    ensures Tame(Coloured("90", "^C") + "\r\n")
  {
    hide Tame, Coloured;
    TameColoured("90", "^C");
    TameText("\r\n");
    TameConcat(Coloured("90", "^C"), "\r\n");
  }
}

/** What typing does to the shell's line and history, said without indices: the
    line is a zipper, the text left and right of the cursor. */
module ShellSpec {
  import opened Basics
  import opened Terminal

  /** What running a command line does: whole lines or a cleared screen, and a directory. */
  datatype Effect = Effect(items: seq<Item>, cwd: string)

  type Outcome = e: Effect | WellFormed(e.items) && Glyphs(e.cwd) witness Effect([], "")

  /** Which characters the shell accepts as text: any table that lists no control character. */
  type Printable = p: char -> bool | forall c :: p(c) ==> !IsControl(c) witness (c => false)

  /** The printable characters, and the outcome of the n-th command line that is run. */
  datatype Env = Env(printable: Printable, exec: (nat, string) -> Outcome)

  datatype Zipper = Zipper(before: string, after: string)

  datatype Shell = Shell(text: Zipper, hist: seq<string>, idx: nat, cwd: string, ran: nat)

  const EMPTY := Zipper("", "")

  function LeftStrip(s: string): (r: string)
    ensures forall i :: 0 <= i < |r| ==> r[i] in s
  {
    if s != "" && s[0] == ' ' then LeftStrip(s[1..]) else s
  }

  function RightStrip(s: string): (r: string)
    ensures forall i :: 0 <= i < |r| ==> r[i] in s
  {
    if s != "" && s[|s| - 1] == ' ' then RightStrip(s[..|s| - 1]) else s
  }

  /** Python's strip(), for a line of printable characters: of these only the
      blank is white space. */
  function Strip(s: string): (r: string)
    ensures forall i :: 0 <= i < |r| ==> r[i] in s
  {
    RightStrip(LeftStrip(s))
  }

  /** Submitting the line: a non-blank one joins the history and is run. */
  function Submitted(env: Env, s: Shell): Shell {
    var entry := Strip(s.text.before + s.text.after);
    if entry == "" then s.(text := EMPTY, idx := |s.hist|)
    else Shell(EMPTY, s.hist + [entry], |s.hist| + 1, env.exec(s.ran, entry).cwd, s.ran + 1)
  }

  function Typed(env: Env, s: Shell, ch: char): Shell {
    var Zipper(before, after) := s.text;
    if ch == '\r' || ch == '\n' then Submitted(env, s)
    else if ch == '\U{7F}' || ch == '\U{08}' then
      (if before == "" then s else s.(text := Zipper(before[..|before| - 1], after)))
    else if ch == '\U{03}' then s.(text := EMPTY)
    else if ch == '\U{0C}' then s
    else if ch == '\U{01}' then s.(text := Zipper("", before + after))
    else if ch == '\U{05}' then s.(text := Zipper(before + after, ""))
    else if ch == '\U{15}' then s.(text := EMPTY)
    else if env.printable(ch) then s.(text := Zipper(before + [ch], after))
    else s
  }

  /** A cursor key, named by the byte after ESC [ ; "" when the input stops there. */
  function Steered(s: Shell, final: string): Shell {
    var Zipper(before, after) := s.text;
    if final == "A" then
      (if 0 < s.idx <= |s.hist| then s.(idx := s.idx - 1, text := Zipper(s.hist[s.idx - 1], "")) else s)
    else if final == "B" then
      (if s.idx + 1 < |s.hist| then s.(idx := s.idx + 1, text := Zipper(s.hist[s.idx + 1], ""))
       else s.(idx := |s.hist|, text := EMPTY))
    else if final == "C" then
      (if after == "" then s else s.(text := Zipper(before + [after[0]], after[1..])))
    else if final == "D" then
      (if before == "" then s
       else s.(text := Zipper(before[..|before| - 1], [before[|before| - 1]] + after)))
    else s
  }

  predicate StartsSequence(input: string) {
    |input| >= 2 && input[0] == ESC && input[1] == '['
  }

  function Min(a: nat, b: nat): nat {
    if a <= b then a else b
  }

  /** What is pressed: a cursor key or a character. */
  datatype Key = Steer(final: string) | Type(ch: char)

  /** How one write of decoded input is read: a group of three starting ESC [ , or what
      there is of it, is a cursor key. */
  function Keys(input: string): seq<Key>
    decreases input
  {
    if input == "" then []
    else if StartsSequence(input) then
      [Steer(input[2..Min(3, |input|)])] + Keys(input[Min(3, |input|)..])
    else [Type(input[0])] + Keys(input[1..])
  }

  function Pressed(env: Env, s: Shell, key: Key): Shell {
    match key
    case Steer(final) => Steered(s, final)
    case Type(ch) => Typed(env, s, ch)
  }

  function PressedAll(env: Env, s: Shell, keys: seq<Key>): Shell
    decreases |keys|
  {
    if keys == [] then s else PressedAll(env, Pressed(env, s, keys[0]), keys[1..])
  }

  /** One write of decoded input. */
  function Entered(env: Env, s: Shell, input: string): Shell {
    PressedAll(env, s, Keys(input))
  }

  lemma EnteredFirst(env: Env, s: Shell, input: string)
    requires input != ""
    ensures Entered(env, s, input) ==
            if StartsSequence(input)
            then Entered(env, Steered(s, input[2..Min(3, |input|)]), input[Min(3, |input|)..])
            else Entered(env, Typed(env, s, input[0]), input[1..])
  {
    hide Typed, Steered;
    var rest := Keys(if StartsSequence(input) then input[Min(3, |input|)..] else input[1..]);
    assert Keys(input)[1..] == rest;
  }

  lemma {:induction false} PressedAllConcat(env: Env, s: Shell, k: seq<Key>, l: seq<Key>)
    ensures PressedAll(env, s, k + l) == PressedAll(env, PressedAll(env, s, k), l)
    decreases |k|
  {
    hide Pressed;
    if k == [] {
      assert k + l == l;
    } else {
      assert (k + l)[0] == k[0] && (k + l)[1..] == k[1..] + l;
      PressedAllConcat(env, Pressed(env, s, k[0]), k[1..], l);
    }
  }

  // ---------------------------------------------------------------------------
  // Sane states

  predicate Accepts(env: Env, s: string) {
    forall i :: 0 <= i < |s| ==> env.printable(s[i])
  }

  /** Everything typed or recalled is printable text and the history index is in range. */
  predicate Sane(env: Env, s: Shell) {
    && s.idx <= |s.hist|
    && Accepts(env, s.text.before) && Accepts(env, s.text.after)
    && (forall k :: 0 <= k < |s.hist| ==> Accepts(env, s.hist[k]))
  }

  /** Input keeps sane states sane and only ever extends the history. */
  lemma {:induction false} InputKeepsHistory(env: Env, s: Shell, input: string)
    requires Sane(env, s)
    ensures Sane(env, Entered(env, s, input))
    ensures s.hist <= Entered(env, s, input).hist
    decreases input
  {
    hide Entered, Typed, Steered;
    if input == "" {
      assert Entered(env, s, input) == s by { EnteredNothing(env, s); }
    } else if StartsSequence(input) {
      EnteredFirst(env, s, input);
      SteeringKeepsHistory(env, s, input[2..Min(3, |input|)]);
      InputKeepsHistory(env, Steered(s, input[2..Min(3, |input|)]), input[Min(3, |input|)..]);
    } else {
      EnteredFirst(env, s, input);
      TypingKeepsHistory(env, s, input[0]);
      InputKeepsHistory(env, Typed(env, s, input[0]), input[1..]);
    }
  }

  lemma EnteredNothing(env: Env, s: Shell)
    ensures Entered(env, s, "") == s
  {
  }

  lemma SteeringKeepsHistory(env: Env, s: Shell, final: string)
    requires Sane(env, s)
    ensures Sane(env, Steered(s, final)) && Steered(s, final).hist == s.hist
  {
  }

  lemma TypingKeepsHistory(env: Env, s: Shell, ch: char)
    requires Sane(env, s)
    ensures Sane(env, Typed(env, s, ch)) && s.hist <= Typed(env, s, ch).hist
  {
    hide Strip;
    StripAccepts(env, s.text.before + s.text.after);
  }

  lemma StripAccepts(env: Env, line: string)
    requires Accepts(env, line)
    ensures Accepts(env, Strip(line))
  {
    forall i | 0 <= i < |Strip(line)| ensures env.printable(Strip(line)[i]) {
      assert Strip(line)[i] in line;
    }
  }

  // ---------------------------------------------------------------------------
  // What Enter takes from the line

  predicate AllBlank(s: string) {
    forall k :: 0 <= k < |s| ==> s[k] == ' '
  }

  /** line[i..j] begins and ends with a character that shows, and all around it is blank. */
  predicate Middle(line: string, i: int, j: int) {
    && 0 <= i < j <= |line| && line[i] != ' ' && line[j - 1] != ' '
    && AllBlank(line[..i]) && AllBlank(line[j..])
  }

  lemma {:induction false} LeftStripFrom(s: string, i: nat)
    requires i <= |s| && AllBlank(s[..i]) && (i < |s| ==> s[i] != ' ')
    ensures LeftStrip(s) == s[i..]
    decreases |s|
  {
    if i > 0 {
      assert s[0] == s[..i][0] && s[1..][..i - 1] == s[..i][1..] && s[1..][i - 1..] == s[i..];
      LeftStripFrom(s[1..], i - 1);
    }
  }

  lemma {:induction false} RightStripTo(s: string, j: nat)
    requires j <= |s| && AllBlank(s[j..]) && (j > 0 ==> s[j - 1] != ' ')
    ensures RightStrip(s) == s[..j]
    decreases |s|
  {
    if j < |s| {
      var m := |s| - 1;
      assert s[m] == s[j..][m - j] && s[..m][j..] == s[j..][..m - j] && s[..m][..j] == s[..j];
      RightStripTo(s[..m], j);
    }
  }

  /** What is taken is the middle part, and nothing of an all-blank line. */
  lemma StripIsMiddle(line: string)
    ensures forall i, j :: Middle(line, i, j) ==> Strip(line) == line[i..j]
    ensures AllBlank(line) ==> Strip(line) == ""
  {
    forall i, j | Middle(line, i, j) ensures Strip(line) == line[i..j] {
      LeftStripFrom(line, i);
      assert line[i..][j - i..] == line[j..] && line[i..][..j - i] == line[i..j];
      RightStripTo(line[i..], j - i);
    }
    if AllBlank(line) {
      assert line[..|line|] == line;
      LeftStripFrom(line, |line|);
    }
  }

  /** Every line has such a part or is all blank. */
  lemma {:induction false} MiddleOrBlank(line: string)
    ensures AllBlank(line) || exists i, j :: Middle(line, i, j)
    decreases |line|
  {
    if line != "" && !AllBlank(line) {
      var m := |line| - 1;
      if line[0] == ' ' {
        MiddleOrBlank(line[1..]);
        assert !AllBlank(line[1..]);
        var i, j :| Middle(line[1..], i, j);
        assert line[..i + 1] == [' '] + line[1..][..i] && line[j + 1..] == line[1..][j..];
        assert Middle(line, i + 1, j + 1);
      } else if line[m] == ' ' {
        MiddleOrBlank(line[..m]);
        assert line[..m][0] == line[0];
        var i, j :| Middle(line[..m], i, j);
        assert line[j..] == line[..m][j..] + [' '] && line[..i] == line[..m][..i];
        assert Middle(line, i, j);
      } else {
        assert Middle(line, 0, |line|);
      }
    }
  }

  // ---------------------------------------------------------------------------
  // What editing keys do to each other

  /** Text typed goes in left of the cursor, whatever the line. */
  lemma {:induction false} TextGoesIn(env: Env, s: Shell, text: string)
    requires Accepts(env, text)
    ensures Entered(env, s, text) == s.(text := Zipper(s.text.before + text, s.text.after))
    decreases text
  {
    hide Entered, Typed, Steered;
    if text == "" {
      EnteredNothing(env, s);
      assert s.text.before + text == s.text.before;
    } else {
      CharacterGoesIn(env, s, text[0]);
      EnteredFirst(env, s, text);
      TextGoesIn(env, Typed(env, s, text[0]), text[1..]);
      assert s.text.before + [text[0]] + text[1..] == s.text.before + text;
    }
  }

  lemma CharacterGoesIn(env: Env, s: Shell, ch: char)
    requires env.printable(ch)
    ensures Typed(env, s, ch) == s.(text := Zipper(s.text.before + [ch], s.text.after)) && ch != ESC
  {
    assert !IsControl(ch);
  }

  /** Backspace or delete takes back what was typed last. */
  lemma RubOutUndoes(env: Env, s: Shell, ch: char, rub: char)
    requires env.printable(ch) && (rub == '\U{7F}' || rub == '\U{08}')
    ensures Typed(env, Typed(env, s, ch), rub) == s
  {
  }

  /** After ^A text goes in front of the line, after ^E behind it, and ^U leaves only it. */
  lemma WhereTextGoes(env: Env, s: Shell, text: string)
    requires Accepts(env, text)
    ensures var line := s.text.before + s.text.after;
            && Entered(env, Typed(env, s, '\U{01}'), text).text == Zipper(text, line)
            && Entered(env, Typed(env, s, '\U{05}'), text).text == Zipper(line + text, "")
            && Entered(env, Typed(env, s, '\U{15}'), text).text == Zipper(text, "")
            && Entered(env, Typed(env, s, '\U{03}'), text).text == Zipper(text, "")
  {
    TextGoesIn(env, Typed(env, s, '\U{01}'), text);
    TextGoesIn(env, Typed(env, s, '\U{05}'), text);
    TextGoesIn(env, Typed(env, s, '\U{15}'), text);
    TextGoesIn(env, Typed(env, s, '\U{03}'), text);
    assert "" + text == text;
  }

  /** Cursor left and right undo each other and neither changes the line. */
  lemma StepsUndo(s: Shell)
    ensures s.text.before != "" ==>
              var t := Steered(s, "D");
              && Steered(t, "C") == s && |t.text.before| == |s.text.before| - 1
              && t.text.before + t.text.after == s.text.before + s.text.after
    ensures s.text.after != "" ==>
              var t := Steered(s, "C");
              && Steered(t, "D") == s && |t.text.before| == |s.text.before| + 1
              && t.text.before + t.text.after == s.text.before + s.text.after
  {
    if s.text.before != "" {
      LeftThenRight(s);
    }
    if s.text.after != "" {
      RightThenLeft(s);
    }
  }

  lemma LeftThenRight(s: Shell)
    requires s.text.before != ""
    ensures var t := Steered(s, "D");
            && Steered(t, "C") == s && |t.text.before| == |s.text.before| - 1
            && t.text.before + t.text.after == s.text.before + s.text.after
  {
    var b, a := s.text.before, s.text.after;
    var front, last := b[..|b| - 1], b[|b| - 1];
    assert b == front + [last];
    assert ([last] + a)[1..] == a;
    Associative(front, [last], a);
    assert Steered(s, "D") == s.(text := Zipper(front, [last] + a));
  }

  lemma RightThenLeft(s: Shell)
    requires s.text.after != ""
    ensures var t := Steered(s, "C");
            && Steered(t, "D") == s && |t.text.before| == |s.text.before| + 1
            && t.text.before + t.text.after == s.text.before + s.text.after
  {
    var b, a := s.text.before, s.text.after;
    var first, rest := a[0], a[1..];
    assert a == [first] + rest;
    assert (b + [first])[..|b|] == b;
    Associative(b, [first], rest);
    assert Steered(s, "C") == s.(text := Zipper(b + [first], rest));
  }

  // ---------------------------------------------------------------------------
  // Walking the history

  function Ups(s: Shell, k: nat): Shell {
    if k == 0 then s else Steered(Ups(s, k - 1), "A")
  }

  function Downs(s: Shell, k: nat): Shell {
    if k == 0 then s else Steered(Downs(s, k - 1), "B")
  }

  /** From the bottom, the k-th "up" recalls the k-th newest entry, and further
      ones stay on the oldest. */
  lemma {:induction false} UpsRecallNewest(s: Shell, k: nat)
    requires s.idx == |s.hist|
    ensures var u := Ups(s, k);
            && u.hist == s.hist
            && (1 <= k <= |s.hist| ==> u.text == Zipper(s.hist[|s.hist| - k], ""))
            && (k >= |s.hist| > 0 ==> u.text == Zipper(s.hist[0], ""))
            && u.idx == if k <= |s.hist| then |s.hist| - k else 0
  {
    if k > 0 {
      UpsRecallNewest(s, k - 1);
    }
  }

  /** Going down again walks back through the same entries to the empty line. */
  lemma {:induction false} DownsReturn(s: Shell, k: nat, j: nat)
    requires s.idx == |s.hist| && j <= k <= |s.hist| && 0 < k
    ensures var d := Downs(Ups(s, k), j);
            && d.hist == s.hist && d.idx == |s.hist| - k + j
            && (j < k ==> d.text == Zipper(s.hist[d.idx], ""))
            && (j == k ==> d.text == EMPTY)
  {
    UpsRecallNewest(s, k);
    if j > 0 {
      DownsReturn(s, k, j - 1);
    }
  }

  // ---------------------------------------------------------------------------
  // How writes may be cut

  /** The cut between `a` and `b` splits no cursor key. */
  predicate CutBetweenKeys(a: string, b: string)
    decreases a
  {
    if a == "" || b == "" then true
    else if StartsSequence(a) then |a| >= 3 && CutBetweenKeys(a[3..], b)
    else if a == [ESC] then b[0] != '['
    else CutBetweenKeys(a[1..], b)
  }

  /** Exactly then the keys of `a` are the first ones of the whole. */
  lemma {:induction false} KeysPrefixIff(a: string, b: string)
    ensures Keys(a) <= Keys(a + b) <==> CutBetweenKeys(a, b)
    ensures CutBetweenKeys(a, b) ==> Keys(a + b) == Keys(a) + Keys(b)
    decreases a
  {
    hide Keys, CutBetweenKeys, StartsSequence;
    NoKeys();
    CutAfterFirst(a, b);
    if a == "" {
      assert a + b == b;
    } else if b == "" {
      assert a + b == a;
    } else {
      KeysPrefixStep(a, b);
      var n := if StartsSequence(a) then 3 else 1;
      if |a| >= n && !(a == [ESC] && b[0] == '[') {
        var key :| Keys(a) == [key] + Keys(a[n..]) && Keys(a + b) == [key] + Keys(a[n..] + b);
        KeysPrefixIff(a[n..], b);
        PrefixAfterFirst(key, Keys(a[n..]), Keys(a[n..] + b));
        Associative([key], Keys(a[n..]), Keys(b));
      }
    }
  }

  lemma CutAfterFirst(a: string, b: string)
    ensures var n := if StartsSequence(a) then 3 else 1;
            CutBetweenKeys(a, b) ==
            (a == "" || b == "" || (|a| >= n && !(a == [ESC] && b[0] == '[') && CutBetweenKeys(a[n..], b)))
  {
  }

  lemma NoKeys()
    ensures Keys("") == []
  {
  }

  lemma PrefixAfterFirst(key: Key, k: seq<Key>, l: seq<Key>)
    ensures [key] + k <= [key] + l <==> k <= l
  {
    if [key] + k <= [key] + l {
      assert ([key] + k)[1..] == k && ([key] + l)[1..] == l;
    }
  }

  lemma KeysPrefixStep(a: string, b: string)
    requires a != "" && b != ""
    ensures Keys(a) != []
    ensures StartsSequence(a) && |a| < 3 ==> !(Keys(a) <= Keys(a + b))
    ensures a == [ESC] && b[0] == '[' ==> !(Keys(a) <= Keys(a + b))
    ensures var n := if StartsSequence(a) then 3 else 1;
            |a| >= n && !(a == [ESC] && b[0] == '[') ==>
              exists key :: Keys(a) == [key] + Keys(a[n..]) && Keys(a + b) == [key] + Keys(a[n..] + b)
  {
    var w := a + b;
    assert StartsSequence(a) ==> StartsSequence(w);
    if StartsSequence(a) {
      if |a| >= 3 {
        assert w[2..3] == a[2..3] && w[3..] == a[3..] + b;
        assert Keys(a) == [Steer(a[2..3])] + Keys(a[3..]);
        assert Keys(w) == [Steer(a[2..3])] + Keys(a[3..] + b);
      } else {
        assert w[2..3] == [b[0]] && a[2..2] == "";
        assert Keys(w)[0] == Steer(w[2..3]) && Keys(a)[0] == Steer(a[2..2]);
      }
    } else if a == [ESC] && b[0] == '[' {
      assert Keys(w)[0].Steer? && Keys(a)[0].Type?;
    } else {
      assert w[0] == a[0] && w[1..] == a[1..] + b;
      assert !StartsSequence(w);
      assert Keys(a) == [Type(a[0])] + Keys(a[1..]);
      assert Keys(w) == [Type(a[0])] + Keys(a[1..] + b);
    }
  }

  /** Two writes are read as one exactly when the cut splits no cursor key. */
  lemma KeysConcatIff(a: string, b: string)
    ensures Keys(a + b) == Keys(a) + Keys(b) <==> CutBetweenKeys(a, b)
  {
    hide Keys, CutBetweenKeys;
    KeysPrefixIff(a, b);
  }

  /** Only the first character after the cut matters. */
  lemma {:induction false} CutBeforeFirst(a: string, b: string, more: string)
    requires b != ""
    ensures CutBetweenKeys(a, b + more) == CutBetweenKeys(a, b)
    decreases a
  {
    if a != "" {
      if StartsSequence(a) {
        if |a| >= 3 {
          CutBeforeFirst(a[3..], b, more);
        }
      } else if a != [ESC] {
        CutBeforeFirst(a[1..], b, more);
      }
    }
  }

  /** And then two writes act as one. */
  lemma WritesConcat(env: Env, s: Shell, a: string, b: string)
    requires CutBetweenKeys(a, b)
    ensures Entered(env, s, a + b) == Entered(env, Entered(env, s, a), b)
  {
    KeysConcatIff(a, b);
    PressedAllConcat(env, s, Keys(a), Keys(b));
  }

  /** The condition is needed: an arrow key delivered as ESC and then "[D" types
      two characters instead of moving left. */
  lemma CutArrowTypesText(env: Env, s: Shell)
    requires env.printable('[') && env.printable('D') && s.text == Zipper("x", "")
    ensures Entered(env, s, [ESC] + "[D").text == Zipper("", "x")
    ensures Entered(env, Entered(env, s, [ESC]), "[D").text == Zipper("x[D", "")
  {
    var left := [ESC] + "[D";
    assert left[2..3] == "D" && left[3..] == "";
    EnteredFirst(env, s, left);
    EnteredNothing(env, Steered(s, "D"));
    assert !env.printable(ESC);
    assert [ESC][1..] == "" && "[D"[1..] == "D" && "D"[1..] == "";
    EnteredFirst(env, s, [ESC]);
    EnteredNothing(env, s);
    EnteredFirst(env, s, "[D");
    var t := Typed(env, s, '[');
    EnteredFirst(env, t, "D");
    EnteredNothing(env, Typed(env, t, 'D'));
  }
}

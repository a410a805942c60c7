/**
 Writing draw commands out. Cursor moves, colour changes and attribute changes are left
 out when the writer believes the terminal is already there; this module shows when
 that belief is right.
 */
module DrawUpdates {
  import opened Wrappers
  import opened Sequences
  import opened Cells
  import opened Screen
  import opened DiffRenderer
  import opened Tty

  // ------------------------------------------------------------------ attributes

  function Optional(condition: bool, a: Attribute): seq<Attribute> {
    if condition then [a] else []
  }

  /** Reverse and bold go; dim, which bold's off switch took along, is put back. */
  function RemoveReversedBold(from: Modifier, to: Modifier): seq<Attribute> {
    Optional(from.reversed && !to.reversed, ReverseOff)
    + Optional(from.bold && !to.bold, NormalIntensity)
    + Optional(from.bold && !to.bold && to.dim, DimOn)
  }

  function RemoveItalicUnderlined(from: Modifier, to: Modifier): seq<Attribute> {
    Optional(from.italic && !to.italic, ItalicOff)
    + Optional(from.underlined && !to.underlined, UnderlineOff)
  }

  function RemoveDimCrossedOut(from: Modifier, to: Modifier): seq<Attribute> {
    Optional(from.dim && !to.dim, NormalIntensity)
    + Optional(from.crossedOut && !to.crossedOut, CrossedOutOff)
  }

  function AddReversedBoldItalic(from: Modifier, to: Modifier): seq<Attribute> {
    Optional(to.reversed && !from.reversed, ReverseOn)
    + Optional(to.bold && !from.bold, BoldOn)
    + Optional(to.italic && !from.italic, ItalicOn)
  }

  function AddOthers(from: Modifier, to: Modifier): seq<Attribute> {
    Optional(to.underlined && !from.underlined, UnderlineOn)
    + Optional(to.dim && !from.dim, DimOn)
    + Optional(to.crossedOut && !from.crossedOut, CrossedOutOn)
  }

  /** `queue_modifier_diff`: first what goes, then what comes. */
  function ModifierChanges(from: Modifier, to: Modifier): seq<Attribute> {
    RemoveReversedBold(from, to) + (RemoveItalicUnderlined(from, to) + RemoveDimCrossedOut(from, to))
    + (AddReversedBoldItalic(from, to) + AddOthers(from, to))
  }

  function ChangeAll(m: Modifier, changes: seq<Attribute>): Modifier
    decreases |changes|
  {
    if changes == [] then m else ChangeAll(Change(m, changes[0]), changes[1..])
  }

  lemma {:induction false} ChangeConcat(m: Modifier, a: seq<Attribute>, b: seq<Attribute>)
    ensures ChangeAll(m, a + b) == ChangeAll(ChangeAll(m, a), b)
    decreases |a|
  {
    if a == [] {
      assert a + b == b;
    } else {
      assert (a + b)[1..] == a[1..] + b;
      ChangeConcat(Change(m, a[0]), a[1..], b);
    }
  }

  lemma ChangeOptional(m: Modifier, a: seq<Attribute>, condition: bool, b: Attribute)
    ensures ChangeAll(m, a + Optional(condition, b)) == if condition then Change(ChangeAll(m, a), b) else ChangeAll(m, a)
  {
    ChangeConcat(m, a, Optional(condition, b));
    if condition { assert [b][1..] == []; }
  }

  lemma ChangeFirst(m: Modifier, condition: bool, b: Attribute)
    ensures ChangeAll(m, Optional(condition, b)) == if condition then Change(m, b) else m
  {
    if condition { assert [b][1..] == []; }
  }

  lemma AfterRemoveReversedBold(m: Modifier, from: Modifier, to: Modifier)
    ensures var off := from.bold && !to.bold;
            ChangeAll(m, RemoveReversedBold(from, to)) ==
            m.(reversed := m.reversed && !(from.reversed && !to.reversed), bold := m.bold && !off, dim := if off then to.dim else m.dim)
  {
    hide ChangeAll, Optional;
    var c0 := Optional(from.reversed && !to.reversed, ReverseOff);
    var c1 := c0 + Optional(from.bold && !to.bold, NormalIntensity);
    ChangeFirst(m, from.reversed && !to.reversed, ReverseOff);
    ChangeOptional(m, c0, from.bold && !to.bold, NormalIntensity);
    ChangeOptional(m, c1, from.bold && !to.bold && to.dim, DimOn);
  }

  lemma AfterRemoveItalicUnderlined(m: Modifier, from: Modifier, to: Modifier)
    ensures ChangeAll(m, RemoveItalicUnderlined(from, to)) ==
            m.(italic := m.italic && !(from.italic && !to.italic), underlined := m.underlined && !(from.underlined && !to.underlined))
  {
    hide ChangeAll, Optional;
    var c0 := Optional(from.italic && !to.italic, ItalicOff);
    ChangeFirst(m, from.italic && !to.italic, ItalicOff);
    ChangeOptional(m, c0, from.underlined && !to.underlined, UnderlineOff);
  }

  lemma AfterRemoveDimCrossedOut(m: Modifier, from: Modifier, to: Modifier)
    ensures var off := from.dim && !to.dim;
            ChangeAll(m, RemoveDimCrossedOut(from, to)) ==
            m.(bold := m.bold && !off, dim := m.dim && !off, crossedOut := m.crossedOut && !(from.crossedOut && !to.crossedOut))
  {
    hide ChangeAll, Optional;
    var c0 := Optional(from.dim && !to.dim, NormalIntensity);
    ChangeFirst(m, from.dim && !to.dim, NormalIntensity);
    ChangeOptional(m, c0, from.crossedOut && !to.crossedOut, CrossedOutOff);
  }

  lemma AfterAddReversedBoldItalic(m: Modifier, from: Modifier, to: Modifier)
    ensures ChangeAll(m, AddReversedBoldItalic(from, to)) ==
            m.(reversed := m.reversed || (to.reversed && !from.reversed), bold := m.bold || (to.bold && !from.bold),
               italic := m.italic || (to.italic && !from.italic))
  {
    hide ChangeAll, Optional;
    var c0 := Optional(to.reversed && !from.reversed, ReverseOn);
    var c1 := c0 + Optional(to.bold && !from.bold, BoldOn);
    ChangeFirst(m, to.reversed && !from.reversed, ReverseOn);
    ChangeOptional(m, c0, to.bold && !from.bold, BoldOn);
    ChangeOptional(m, c1, to.italic && !from.italic, ItalicOn);
  }

  lemma AfterAddUnderlinedDim(m: Modifier, underlined: bool, dim: bool)
    ensures ChangeAll(m, Optional(underlined, UnderlineOn) + Optional(dim, DimOn)) ==
            m.(underlined := m.underlined || underlined, dim := m.dim || dim)
  {
    hide ChangeAll, Optional;
    ChangeFirst(m, underlined, UnderlineOn);
    ChangeOptional(m, Optional(underlined, UnderlineOn), dim, DimOn);
  }

  lemma AfterAddThree(m: Modifier, underlined: bool, dim: bool, crossedOut: bool)
    ensures ChangeAll(m, Optional(underlined, UnderlineOn) + Optional(dim, DimOn) + Optional(crossedOut, CrossedOutOn)) ==
            m.(underlined := m.underlined || underlined, dim := m.dim || dim, crossedOut := m.crossedOut || crossedOut)
  {
    hide ChangeAll, Optional;
    AfterAddUnderlinedDim(m, underlined, dim);
    ChangeOptional(m, Optional(underlined, UnderlineOn) + Optional(dim, DimOn), crossedOut, CrossedOutOn);
  }

  lemma AfterAddOthers(m: Modifier, from: Modifier, to: Modifier)
    ensures ChangeAll(m, AddOthers(from, to)) ==
            m.(underlined := m.underlined || (to.underlined && !from.underlined), dim := m.dim || (to.dim && !from.dim),
               crossedOut := m.crossedOut || (to.crossedOut && !from.crossedOut))
  {
    hide ChangeAll, Optional;
    AfterAddThree(m, to.underlined && !from.underlined, to.dim && !from.dim, to.crossedOut && !from.crossedOut);
  }

  /** Bold and dim share one off switch, and only bold's removal puts dim back: dropping
      dim from bold and dim text drops bold as well. */
  predicate KeepsIntensity(from: Modifier, to: Modifier) {
    !(from.bold && from.dim && to.bold && !to.dim)
  }

  /** What the terminal's attributes can be when the writer believes in m: they may lack
      bold, nothing else. */
  function Really(m: Modifier, bold: bool): Modifier {
    Emitted(m).(bold := m.bold && bold)
  }

  /** Whether the terminal is bold after a change, given whether it was before. */
  function BoldAfter(bold: bool, from: Modifier, to: Modifier): bool {
    to.bold && (!from.bold || (bold && KeepsIntensity(from, to)))
  }

  /** Where the changes lead, from attributes that may lack bold. */
  lemma ModifierChangesReally(from: Modifier, to: Modifier, bold: bool)
    ensures ChangeAll(Really(from, bold), ModifierChanges(from, to)) == Really(to, BoldAfter(bold, from, to))
  {
    hide ChangeAll, RemoveReversedBold, RemoveItalicUnderlined, RemoveDimCrossedOut, AddReversedBoldItalic, AddOthers;
    var m := Really(from, bold);
    var a, b, c := RemoveReversedBold(from, to), RemoveItalicUnderlined(from, to), RemoveDimCrossedOut(from, to);
    var d, e := AddReversedBoldItalic(from, to), AddOthers(from, to);
    ChangeConcat(m, a + (b + c), d + e);
    ChangeConcat(m, a, b + c);
    AfterRemoveReversedBold(m, from, to);
    var m1 := ChangeAll(m, a);
    ChangeConcat(m1, b, c);
    AfterRemoveItalicUnderlined(m1, from, to);
    AfterRemoveDimCrossedOut(ChangeAll(m1, b), from, to);
    var m2 := ChangeAll(m1, b + c);
    ChangeConcat(m2, d, e);
    AfterAddReversedBoldItalic(m2, from, to);
    AfterAddOthers(ChangeAll(m2, d), from, to);
  }

  /** The changes lead from one modifier to the other exactly when intensity is kept. */
  lemma ModifierChangesExact(from: Modifier, to: Modifier)
    ensures ChangeAll(Emitted(from), ModifierChanges(from, to)) == Emitted(to) <==> KeepsIntensity(from, to)
  {
    hide ChangeAll, ModifierChanges;
    ModifierChangesReally(from, to, true);
    assert Really(from, true) == Emitted(from);
  }

  function AttrOps(changes: seq<Attribute>): (ops: seq<Op>)
    ensures |ops| == |changes|
  {
    seq(|changes|, i requires 0 <= i < |changes| => Attr(changes[i]))
  }

  lemma {:induction false} ExecAttrs(t: Terminal, changes: seq<Attribute>)
    requires t.Ok() && ResetAll !in changes
    ensures ExecAll(t, AttrOps(changes)) == t.(modifier := ChangeAll(t.modifier, changes))
    decreases |changes|
  {
    if changes != [] {
      ExecOk(t, Attr(changes[0]));
      assert AttrOps(changes)[1..] == AttrOps(changes[1..]);
      ExecAttrs(Exec(t, Attr(changes[0])), changes[1..]);
    }
  }

  lemma NoResetInChanges(from: Modifier, to: Modifier)
    ensures ResetAll !in ModifierChanges(from, to)
  {
    assert ResetAll !in RemoveReversedBold(from, to);
    assert ResetAll !in RemoveItalicUnderlined(from, to);
    assert ResetAll !in RemoveDimCrossedOut(from, to);
    assert ResetAll !in AddReversedBoldItalic(from, to);
    assert ResetAll !in AddOthers(from, to);
  }

  lemma ExecModifierChanges(t: Terminal, from: Modifier, to: Modifier, bold: bool)
    requires t.Ok() && t.modifier == Really(from, bold)
    ensures ExecAll(t, AttrOps(ModifierChanges(from, to))) == t.(modifier := Really(to, BoldAfter(bold, from, to)))
  {
    hide ModifierChanges, ChangeAll, Really, AttrOps, ExecAll;
    NoResetInChanges(from, to);
    ExecAttrs(t, ModifierChanges(from, to));
    ModifierChangesReally(from, to, bold);
  }

  // --------------------------------------------------------------- the writer

  /** The variables of `draw_updates`: what it believes about the terminal. */
  datatype Pen = Pen(fg: Color, bg: Color, modifier: Modifier, last: Option<(nat, nat)>)

  const FRESH_PEN := Pen(Reset, Reset, PLAIN, None)

  /** The move is left out right behind the previous command. */
  predicate Elided(pen: Pen, command: DrawCommand) {
    pen.last.Some? && command.x == pen.last.value.0 + 1 && command.y == pen.last.value.1
  }

  function MoveOps(pen: Pen, command: DrawCommand): seq<Op> {
    if Elided(pen, command) then [] else [MoveTo(command.x, command.y)]
  }

  function ColorOps(pen: Pen, fg: Color, bg: Color): seq<Op> {
    if fg != pen.fg || bg != pen.bg then [SetFg(fg), SetBg(bg)] else []
  }

  function CommandOps(pen: Pen, command: DrawCommand, p: Palette): seq<Op> {
    match command
    case Put(x, y, cell) =>
      MoveOps(pen, command)
      + AttrOps(ModifierChanges(pen.modifier, cell.modifier))
      + ColorOps(pen, p.fg(cell.fg), p.bg(cell.bg))
      + [Print(cell.symbol)]
    case ClearToEnd(x, y, bg) =>
      MoveOps(pen, command) + [Attr(ResetAll), SetBg(p.bg(bg)), ClearLine]
  }

  /** The pen after a command. A clear resets every attribute, but the remembered
      foreground stays. */
  function NextPen(pen: Pen, command: DrawCommand, p: Palette): Pen {
    match command
    case Put(x, y, cell) => Pen(p.fg(cell.fg), p.bg(cell.bg), cell.modifier, Some((x, y)))
    case ClearToEnd(x, y, bg) => Pen(pen.fg, p.bg(bg), PLAIN, Some((x, y)))
  }

  function Written(pen: Pen, commands: seq<DrawCommand>, p: Palette): seq<Op>
    decreases |commands|
  {
    if commands == [] then []
    else CommandOps(pen, commands[0], p) + Written(NextPen(pen, commands[0], p), commands[1..], p)
  }

  const FINISH: seq<Op> := [SetFg(Reset), SetBg(Reset), Attr(ResetAll)]

  lemma SameModifierChanges(m: Modifier)
    ensures ModifierChanges(m, m) == []
  {
  }

  /** The body of the loop of `draw_updates`. */
  method WriteCommand(pen: Pen, command: DrawCommand, p: Palette) returns (ops: seq<Op>, next: Pen)
    ensures ops == CommandOps(pen, command, p)
    ensures next == NextPen(pen, command, p)
  {
    hide ModifierChanges, AttrOps;
    ops, next := [], pen;
    if !(pen.last.Some? && command.x == pen.last.value.0 + 1 && command.y == pen.last.value.1) {
      ops := ops + [MoveTo(command.x, command.y)];
    }
    next := next.(last := Some((command.x, command.y)));
    match command {
      case Put(_, _, cell) =>
        var nextFg, nextBg := p.fg(cell.fg), p.bg(cell.bg);
        if cell.modifier != pen.modifier {
          ops := ops + AttrOps(ModifierChanges(pen.modifier, cell.modifier));
          next := next.(modifier := cell.modifier);
        } else {
          SameModifierChanges(cell.modifier);
          NoAttrs();
        }
        if nextFg != pen.fg || nextBg != pen.bg {
          ops := ops + [SetFg(nextFg), SetBg(nextBg)];
          next := next.(fg := nextFg, bg := nextBg);
        }
        ops := ops + [Print(cell.symbol)];
      case ClearToEnd(_, _, clearBg) =>
        ops := ops + [Attr(ResetAll)];
        next := next.(modifier := PLAIN);
        ops := ops + [SetBg(p.bg(clearBg))];
        next := next.(bg := p.bg(clearBg));
        ops := ops + [ClearLine];
    }
  }

  /** `draw_updates`. */
  method WriteUpdates(commands: seq<DrawCommand>, p: Palette) returns (ops: seq<Op>)
    ensures ops == Written(FRESH_PEN, commands, p) + FINISH
  {
    hide Written, CommandOps;
    ops := [];
    var pen := FRESH_PEN;
    assert commands[0..] == commands && [] + Written(FRESH_PEN, commands, p) == Written(FRESH_PEN, commands, p);
    for i := 0 to |commands|
      invariant Written(FRESH_PEN, commands, p) == ops + Written(pen, commands[i..], p)
    {
      WrittenStep(pen, commands[i..], p);
      assert commands[i..][1..] == commands[i + 1..];
      var more, next := WriteCommand(pen, commands[i], p);
      Associative(ops, more, Written(next, commands[i + 1..], p));
      ops, pen := ops + more, next;
    }
    assert commands[|commands|..] == [];
    WrittenNothing(pen, p);
    assert ops + [] == ops;
    ops := ops + FINISH;
  }

  lemma NoAttrs()
    ensures AttrOps([]) == []
  {
  }

  lemma WrittenNothing(pen: Pen, p: Palette)
    ensures Written(pen, [], p) == []
  {
  }

  lemma WrittenStep(pen: Pen, commands: seq<DrawCommand>, p: Palette)
    requires commands != []
    ensures Written(pen, commands, p) == CommandOps(pen, commands[0], p) + Written(NextPen(pen, commands[0], p), commands[1..], p)
  {
    hide CommandOps;
  }

  /** Puts of one style in neighbouring columns. */
  function RunOf(symbols: seq<Symbol>, x: nat, y: nat, style: Cell): (puts: seq<DrawCommand>)
    ensures |puts| == |symbols|
    ensures forall i :: 0 <= i < |puts| ==> puts[i] == Put(x + i, y, style.(symbol := symbols[i]))
  {
    seq(|symbols|, i requires 0 <= i < |symbols| => Put(x + i, y, style.(symbol := symbols[i])))
  }

  function Prints(symbols: seq<Symbol>): (ops: seq<Op>)
    ensures |ops| == |symbols|
    ensures forall i :: 0 <= i < |ops| ==> ops[i] == Print(symbols[i])
  {
    seq(|symbols|, i requires 0 <= i < |symbols| => Print(symbols[i]))
  }

  lemma {:induction false} RestOfRun(pen: Pen, symbols: seq<Symbol>, x: nat, y: nat, style: Cell, p: Palette)
    requires pen == Pen(p.fg(style.fg), p.bg(style.bg), style.modifier, Some((x, y)))
    ensures Written(pen, RunOf(symbols, x + 1, y, style), p) == Prints(symbols)
    decreases |symbols|
  {
    if symbols != [] {
      var run := RunOf(symbols, x + 1, y, style);
      SameModifierChanges(style.modifier);
      NoAttrs();
      assert run[1..] == RunOf(symbols[1..], x + 2, y, style);
      RestOfRun(pen.(last := Some((x + 1, y))), symbols[1..], x + 1, y, style, p);
      assert CommandOps(pen, run[0], p) == [Print(symbols[0])];
      assert Prints(symbols) == [Print(symbols[0])] + Prints(symbols[1..]);
    }
  }

  /** Text of one style in one row is sent as one move, its attributes and colours once,
      and its symbols. */
  lemma RunIsOneMove(symbols: seq<Symbol>, x: nat, y: nat, style: Cell, p: Palette)
    requires symbols != []
    ensures Written(FRESH_PEN, RunOf(symbols, x, y, style), p) ==
            [MoveTo(x, y)] + AttrOps(ModifierChanges(PLAIN, style.modifier))
            + (if p.fg(style.fg) == Reset && p.bg(style.bg) == Reset then [] else [SetFg(p.fg(style.fg)), SetBg(p.bg(style.bg))])
            + Prints(symbols)
  {
    hide ModifierChanges, AttrOps;
    var run := RunOf(symbols, x, y, style);
    var pen := Pen(p.fg(style.fg), p.bg(style.bg), style.modifier, Some((x, y)));
    assert run[1..] == RunOf(symbols[1..], x + 1, y, style);
    RestOfRun(pen, symbols[1..], x, y, style, p);
    WrittenStep(FRESH_PEN, run, p);
    var start := CommandOps(FRESH_PEN, run[0], p);
    var prefix := PutPrefix(FRESH_PEN, run[0], p);
    assert start == prefix + [Print(symbols[0])];
    Associative(prefix, [Print(symbols[0])], Prints(symbols[1..]));
    assert Prints(symbols) == [Print(symbols[0])] + Prints(symbols[1..]);
  }

  // ------------------------------------------------- the terminal, op by op

  /** The terminal's real colours are the believed ones, and so are its attributes, but
      for bold, which may be lost. */
  predicate Synced(t: Terminal, pen: Pen, bold: bool) {
    t.fg == pen.fg && t.bg == pen.bg && t.modifier == Really(pen.modifier, bold) && !t.lost
  }

  predicate Fits(command: DrawCommand, width: nat, height: nat) {
    command.y < height && if command.Put? then command.x + Width(command.cell.symbol) <= width else command.x < width
  }

  lemma ExecMove(t: Terminal, pen: Pen, command: DrawCommand)
    requires t.Ok() && Fits(command, t.width, |t.grid|)
    requires Elided(pen, command) ==> t.x == command.x && t.y == command.y
    ensures ExecAll(t, MoveOps(pen, command)) == t.(x := command.x, y := command.y)
  {
    if !Elided(pen, command) {
      ExecOne(t, MoveTo(command.x, command.y));
    }
  }

  lemma ExecColors(t: Terminal, pen: Pen, fg: Color, bg: Color)
    requires t.Ok() && t.fg == pen.fg && t.bg == pen.bg
    ensures ExecAll(t, ColorOps(pen, fg, bg)) == t.(fg := fg, bg := bg)
  {
    if fg != pen.fg || bg != pen.bg {
      var ops := [SetFg(fg), SetBg(bg)];
      assert ops == [SetFg(fg)] + [SetBg(bg)];
      ExecConcat(t, [SetFg(fg)], [SetBg(bg)]);
      ExecOne(t, SetFg(fg));
      ExecOne(t.(fg := fg), SetBg(bg));
    }
  }

  function PutPrefix(pen: Pen, command: DrawCommand, p: Palette): seq<Op>
    requires command.Put?
  {
    MoveOps(pen, command)
    + AttrOps(ModifierChanges(pen.modifier, command.cell.modifier))
    + ColorOps(pen, p.fg(command.cell.fg), p.bg(command.cell.bg))
  }

  /** Before it prints, a put has the terminal at its own place in its own colours,
      whatever happened to the attributes. */
  lemma ExecPutPrefix(t: Terminal, pen: Pen, command: DrawCommand, p: Palette, bold: bool)
    requires t.Ok() && Synced(t, pen, bold) && command.Put? && Fits(command, t.width, |t.grid|)
    requires Elided(pen, command) ==> t.x == command.x && t.y == command.y
    ensures var cell := command.cell;
            ExecAll(t, PutPrefix(pen, command, p)) ==
            t.(x := command.x, y := command.y, fg := p.fg(cell.fg), bg := p.bg(cell.bg),
               modifier := Really(cell.modifier, BoldAfter(bold, pen.modifier, cell.modifier)))
  {
    hide ModifierChanges, AttrOps, MoveOps, ColorOps, Really, BoldAfter, ExecAll;
    var cell := command.cell;
    var moves, attrs := MoveOps(pen, command), AttrOps(ModifierChanges(pen.modifier, cell.modifier));
    var colors := ColorOps(pen, p.fg(cell.fg), p.bg(cell.bg));
    ExecMove(t, pen, command);
    var t1 := t.(x := command.x, y := command.y);
    ExecConcat(t, moves, attrs);
    ExecModifierChanges(t1, pen.modifier, cell.modifier, bold);
    var t2 := t1.(modifier := Really(cell.modifier, BoldAfter(bold, pen.modifier, cell.modifier)));
    ExecConcat(t, moves + attrs, colors);
    ExecColors(t2, pen, p.fg(cell.fg), p.bg(cell.bg));
  }

  lemma PrintIsApply(t: Terminal, command: DrawCommand, p: Palette)
    requires t.Ok() && command.Put? && Fits(command, t.width, |t.grid|)
    requires t.x == command.x && t.y == command.y
    requires Cell(command.cell.symbol, t.fg, t.bg, t.modifier) == p.Drawn(command.cell)
    ensures Exec(t, Print(command.cell.symbol)) ==
            t.(grid := Apply(t.grid, command, p), x := command.x + Width(command.cell.symbol))
  {
    hide Overwrite;
  }

  // --------------------------------------------------------- what is really printed

  /** A command as it reaches the screen: a put may have lost its bold. */
  function Faded(command: DrawCommand, from: Modifier, bold: bool): DrawCommand {
    match command
    case Put(x, y, cell) => Put(x, y, cell.(modifier := cell.modifier.(bold := BoldAfter(bold, from, cell.modifier))))
    case ClearToEnd(_, _, _) => command
  }

  function ModifierOf(command: DrawCommand): Modifier {
    if command.Put? then command.cell.modifier else PLAIN
  }

  /** All commands as they reach the screen, when the writer believes in the attributes
      from and the terminal is, or is not, bold. */
  function FadedAll(commands: seq<DrawCommand>, from: Modifier, bold: bool): (r: seq<DrawCommand>)
    ensures |r| == |commands|
    decreases |commands|
  {
    if commands == [] then []
    else
      [Faded(commands[0], from, bold)]
      + FadedAll(commands[1..], ModifierOf(commands[0]), BoldAfter(bold, from, ModifierOf(commands[0])))
  }

  lemma FadedDraws(command: DrawCommand, from: Modifier, bold: bool, p: Palette)
    requires command.Put?
    ensures var f, cell := Faded(command, from, bold), command.cell;
            && f.Put? && f.x == command.x && f.y == command.y && f.cell.symbol == cell.symbol
            && p.Drawn(f.cell) == Cell(cell.symbol, p.fg(cell.fg), p.bg(cell.bg), Really(cell.modifier, BoldAfter(bold, from, cell.modifier)))
  {
    hide KeepsIntensity;
  }

  /** A put does to the screen what its faded form means, and leaves the cursor behind
      its symbol. */
  lemma ExecPut(t: Terminal, pen: Pen, command: DrawCommand, p: Palette, bold: bool)
    requires t.Ok() && Synced(t, pen, bold) && command.Put? && Fits(command, t.width, |t.grid|)
    requires Elided(pen, command) ==> t.x == command.x && t.y == command.y
    ensures var cell := command.cell;
            ExecAll(t, CommandOps(pen, command, p)) ==
            t.(grid := Apply(t.grid, Faded(command, pen.modifier, bold), p), x := command.x + Width(cell.symbol), y := command.y,
               fg := p.fg(cell.fg), bg := p.bg(cell.bg), modifier := Really(cell.modifier, BoldAfter(bold, pen.modifier, cell.modifier)))
  {
    hide Really, BoldAfter, Faded, ExecAll, Exec, Apply, Synced, Elided, MoveOps, ColorOps, AttrOps, Palette.Drawn;
    var cell := command.cell;
    var after := BoldAfter(bold, pen.modifier, cell.modifier);
    ExecPutPrefix(t, pen, command, p, bold);
    var ready := t.(x := command.x, y := command.y, fg := p.fg(cell.fg), bg := p.bg(cell.bg), modifier := Really(cell.modifier, after));
    ExecConcat(t, PutPrefix(pen, command, p), [Print(cell.symbol)]);
    ExecOne(ready, Print(cell.symbol));
    FadedDraws(command, pen.modifier, bold, p);
    PrintIsApply(ready, Faded(command, pen.modifier, bold), p);
  }

  /** A clear resets the terminal's foreground as well, which the pen overlooks; that
      does no harm while the pen's foreground is still the reset one. */
  lemma ExecClear(t: Terminal, pen: Pen, command: DrawCommand, p: Palette, bold: bool)
    requires t.Ok() && Synced(t, pen, bold) && command.ClearToEnd? && Fits(command, t.width, |t.grid|)
    requires Elided(pen, command) ==> t.x == command.x && t.y == command.y
    ensures ExecAll(t, CommandOps(pen, command, p)) ==
            t.(grid := Apply(t.grid, command, p), x := command.x, y := command.y,
               fg := Reset, bg := p.bg(command.bg), modifier := PLAIN)
  {
    hide MoveOps, ExecAll, Exec, ClearFrom, Apply, Elided;
    var moves := MoveOps(pen, command);
    ExecMove(t, pen, command);
    ClearIsApply(t, command, p);
    var t1 := t.(x := command.x, y := command.y);
    var bg := SetBg(p.bg(command.bg));
    assert [Attr(ResetAll), bg, ClearLine] == [Attr(ResetAll)] + ([bg] + [ClearLine]);
    ExecConcat(t, moves, [Attr(ResetAll)] + ([bg] + [ClearLine]));
    ExecConcat(t1, [Attr(ResetAll)], [bg] + [ClearLine]);
    ResetEffects(t1, p.bg(command.bg));
    ExecOne(t1, Attr(ResetAll));
    var t2 := t1.(fg := Reset, bg := Reset, modifier := PLAIN);
    ExecConcat(t2, [bg], [ClearLine]);
    ExecOne(t2, bg);
    var t3 := t2.(bg := p.bg(command.bg));
    ClearLineEffect(t3);
    ExecOne(t3, ClearLine);
  }

  lemma ResetEffects(t: Terminal, bg: Color)
    requires t.Ok()
    ensures Exec(t, Attr(ResetAll)) == t.(fg := Reset, bg := Reset, modifier := PLAIN)
    ensures Exec(t.(fg := Reset, bg := Reset, modifier := PLAIN), SetBg(bg)) == t.(fg := Reset, bg := bg, modifier := PLAIN)
  {
    hide BlankLine, ScrollUp, ScrollDown, ClearFrom, BlankRows, Overwrite;
  }

  lemma ClearIsApply(t: Terminal, command: DrawCommand, p: Palette)
    requires t.Ok() && command.ClearToEnd? && Fits(command, t.width, |t.grid|)
    ensures Apply(t.grid, command, p) ==
            t.grid[command.y := ClearFrom(t.grid[command.y], Least(command.x, t.width - 1), p.bg(command.bg))]
  {
    hide ClearFrom;
  }

  // -------------------------------------------------------- lists it is sound for

  /** What must hold between two commands in a row for leaving out moves and colours to
      be sound: no clear after a put, and a command right behind another only if that
      one was a narrow put. */
  predicate MayFollow(a: DrawCommand, b: DrawCommand) {
    && (b.ClearToEnd? ==> a.ClearToEnd?)
    && (b.x == a.x + 1 && b.y == a.y ==> a.Put? && a.cell.symbol.Narrow?)
  }

  ghost predicate Orderly(commands: seq<DrawCommand>) {
    forall i :: 0 < i < |commands| ==> MayFollow(commands[i - 1], commands[i])
  }

  ghost predicate AllFit(commands: seq<DrawCommand>, width: nat, height: nat) {
    forall c :: c in commands ==> Fits(c, width, height)
  }

  /** The terminal and the pen just after a command. */
  ghost predicate Behind(t: Terminal, pen: Pen, previous: Option<DrawCommand>, bold: bool) {
    && Synced(t, pen, bold)
    && (previous.None? ==> pen == FRESH_PEN)
    && (previous.Some? ==> pen.last == Some((previous.value.x, previous.value.y)) && pen.modifier == ModifierOf(previous.value))
    && (previous.Some? && previous.value.ClearToEnd? ==> pen.fg == Reset)
    && (previous.Some? && previous.value.Put? ==>
          t.x == previous.value.x + Width(previous.value.cell.symbol) && t.y == previous.value.y)
  }

  /** The list from here on, behind previous, is one the writer's shortcuts are right for. */
  ghost predicate Continues(previous: Option<DrawCommand>, commands: seq<DrawCommand>, t: Terminal) {
    && Orderly(commands) && AllFit(commands, t.width, |t.grid|)
    && (previous.Some? && commands != [] ==> MayFollow(previous.value, commands[0]))
  }

  lemma ContinuesStep(previous: Option<DrawCommand>, commands: seq<DrawCommand>, t: Terminal, r: Terminal)
    requires Continues(previous, commands, t) && commands != [] && r.width == t.width && |r.grid| == |t.grid|
    ensures Continues(Some(commands[0]), commands[1..], r) && Fits(commands[0], t.width, |t.grid|)
  {
    hide MayFollow, Fits;
    var rest := commands[1..];
    assert forall i :: 0 < i < |rest| ==> rest[i - 1] == commands[i] && rest[i] == commands[i + 1];
    assert forall c :: c in rest ==> c in commands;
    if rest != [] { assert MayFollow(commands[0], commands[1]); }
  }

  lemma MayMove(t: Terminal, pen: Pen, previous: Option<DrawCommand>, command: DrawCommand, bold: bool)
    requires Behind(t, pen, previous, bold) && (previous.Some? ==> MayFollow(previous.value, command))
    ensures Elided(pen, command) ==> t.x == command.x && t.y == command.y
  {
  }

  lemma ExecCommand(t: Terminal, pen: Pen, previous: Option<DrawCommand>, command: DrawCommand, p: Palette, bold: bool)
    requires t.Ok() && Behind(t, pen, previous, bold) && Fits(command, t.width, |t.grid|)
    requires previous.Some? ==> MayFollow(previous.value, command)
    ensures var r := ExecAll(t, CommandOps(pen, command, p));
            && r.grid == Apply(t.grid, Faded(command, pen.modifier, bold), p)
            && r.top == t.top && r.bottom == t.bottom
            && Behind(r, NextPen(pen, command, p), Some(command), BoldAfter(bold, pen.modifier, ModifierOf(command)))
  {
    hide CommandOps, ExecAll, Apply, Really, Fits;
    MayMove(t, pen, previous, command, bold);
    if command.Put? {
      ExecPut(t, pen, command, p, bold);
    } else {
      PlainIsReally(BoldAfter(bold, pen.modifier, PLAIN));
      ExecClear(t, pen, command, p, bold);
    }
  }

  lemma PlainIsReally(bold: bool)
    ensures Really(PLAIN, bold) == PLAIN
  {
  }

  lemma {:induction false} WrittenSound(
      t: Terminal, pen: Pen, previous: Option<DrawCommand>, commands: seq<DrawCommand>, p: Palette, bold: bool)
    requires t.Ok() && Behind(t, pen, previous, bold) && Continues(previous, commands, t)
    ensures var r := ExecAll(t, Written(pen, commands, p));
            r.grid == ApplyAll(t.grid, FadedAll(commands, pen.modifier, bold), p) && r.top == t.top && r.bottom == t.bottom && !r.lost
    decreases |commands|
  {
    hide CommandOps, Apply, MayFollow, Fits, ExecAll, Written, Orderly, AllFit, Faded, BoldAfter, Really;
    if commands == [] {
      WrittenNothing(pen, p);
      ExecNothing(t);
    } else {
      var c, rest := commands[0], commands[1..];
      ContinuesStep(previous, commands, t, t);
      ExecCommand(t, pen, previous, c, p, bold);
      WrittenStep(pen, commands, p);
      var next := NextPen(pen, c, p);
      var u := ExecAll(t, CommandOps(pen, c, p));
      ExecConcat(t, CommandOps(pen, c, p), Written(next, rest, p));
      ContinuesStep(previous, commands, t, u);
      var bold' := BoldAfter(bold, pen.modifier, ModifierOf(c));
      WrittenSound(u, next, Some(c), rest, p, bold');
      FadedStep(commands, pen.modifier, bold);
    }
  }

  lemma FadedStep(commands: seq<DrawCommand>, from: Modifier, bold: bool)
    requires commands != []
    ensures var r := FadedAll(commands, from, bold);
            && r != [] && r[0] == Faded(commands[0], from, bold)
            && r[1..] == FadedAll(commands[1..], ModifierOf(commands[0]), BoldAfter(bold, from, ModifierOf(commands[0])))
  {
    hide Faded, BoldAfter;
  }

  /** Wherever a put is in the list: when its symbol is printed, the cursor is at its
      own position and the colours are its own. */
  lemma {:induction false} PutInPlace(
      t: Terminal, pen: Pen, previous: Option<DrawCommand>, commands: seq<DrawCommand>, p: Palette, bold: bool, i: nat)
      returns (before: seq<Op>, after: seq<Op>)
    requires t.Ok() && Behind(t, pen, previous, bold) && Continues(previous, commands, t)
    requires i < |commands| && commands[i].Put?
    ensures Written(pen, commands, p) == before + [Print(commands[i].cell.symbol)] + after
    ensures var u := ExecAll(t, before);
            && u.x == commands[i].x && u.y == commands[i].y
            && u.fg == p.fg(commands[i].cell.fg) && u.bg == p.bg(commands[i].cell.bg)
    decreases |commands|
  {
    hide MayFollow, Fits, ExecAll, Written, Orderly, AllFit, BoldAfter, Really, MoveOps, AttrOps, ColorOps, Apply, Faded;
    var c, rest := commands[0], commands[1..];
    ContinuesStep(previous, commands, t, t);
    WrittenStep(pen, commands, p);
    var next := NextPen(pen, c, p);
    if i == 0 {
      MayMove(t, pen, previous, c, bold);
      ExecPutPrefix(t, pen, c, p, bold);
      before, after := PutPrefix(pen, c, p), Written(next, rest, p);
    } else {
      var ops := CommandOps(pen, c, p);
      ExecCommand(t, pen, previous, c, p, bold);
      var u := ExecAll(t, ops);
      ContinuesStep(previous, commands, t, u);
      var front: seq<Op>;
      front, after := PutInPlace(u, next, Some(c), rest, p, BoldAfter(bold, pen.modifier, ModifierOf(c)), i - 1);
      before := ops + front;
      ExecConcat(t, ops, front);
      var symbol := [Print(commands[i].cell.symbol)];
      Associative(ops, front + symbol, after);
      Associative(ops, front, symbol);
    }
  }

  lemma ExecNothing(t: Terminal)
    requires t.Ok()
    ensures ExecAll(t, []) == t
  {
  }

  lemma ExecFinish(t: Terminal)
    requires t.Ok() && !t.lost
    ensures var r := ExecAll(t, FINISH);
            r.IsPlain() && r.grid == t.grid && r.top == t.top && r.bottom == t.bottom
  {
    hide ExecAll;
    assert FINISH == [SetFg(Reset)] + ([SetBg(Reset)] + [Attr(ResetAll)]);
    ExecConcat(t, [SetFg(Reset)], [SetBg(Reset)] + [Attr(ResetAll)]);
    ExecOne(t, SetFg(Reset));
    var t1 := t.(fg := Reset);
    ExecConcat(t1, [SetBg(Reset)], [Attr(ResetAll)]);
    ExecOne(t1, SetBg(Reset));
    ExecOne(t1.(bg := Reset), Attr(ResetAll));
  }

  lemma PlainIsBehind(t: Terminal)
    requires t.IsPlain()
    ensures Behind(t, FRESH_PEN, None, false)
  {
  }

  /** For an orderly list the shortened output does to the screen exactly what the
      commands mean, lost bold aside, and leaves the terminal as it was found: plain. */
  lemma UpdatesSound(t: Terminal, commands: seq<DrawCommand>, p: Palette)
    requires t.Ok() && t.IsPlain() && Orderly(commands) && AllFit(commands, t.width, |t.grid|)
    ensures var r := ExecAll(t, Written(FRESH_PEN, commands, p) + FINISH);
            && r.grid == ApplyAll(t.grid, FadedAll(commands, PLAIN, false), p)
            && r.IsPlain() && r.top == t.top && r.bottom == t.bottom
  {
    hide ExecAll, Written, ApplyAll, Emitted, FINISH, FadedAll, Behind, Orderly, AllFit;
    PlainIsBehind(t);
    WrittenSound(t, FRESH_PEN, None, commands, p, false);
    ExecConcat(t, Written(FRESH_PEN, commands, p), FINISH);
    ExecFinish(ExecAll(t, Written(FRESH_PEN, commands, p)));
  }

  // ------------------------------------------------------------- when bold is kept

  /** No put drops dim alone from the bold and dim cell put just before it. */
  predicate KeepsBold(commands: seq<DrawCommand>) {
    forall i :: 0 < i < |commands| ==> KeepsIntensity(ModifierOf(commands[i - 1]), ModifierOf(commands[i]))
  }

  lemma KeepsBoldStep(commands: seq<DrawCommand>)
    requires commands != []
    ensures var c, rest := commands[0], commands[1..];
            KeepsBold(commands) <==> KeepsBold(rest) && (rest != [] ==> KeepsIntensity(ModifierOf(c), ModifierOf(rest[0])))
  {
    hide KeepsIntensity, ModifierOf;
    var rest := commands[1..];
    assert rest != [] ==> rest[0] == commands[1];
    assert forall i :: 0 < i < |rest| ==> rest[i - 1] == commands[i] && rest[i] == commands[i + 1];
    if KeepsBold(rest) && (rest != [] ==> KeepsIntensity(ModifierOf(commands[0]), ModifierOf(rest[0]))) {
      forall i | 0 < i < |commands| ensures KeepsIntensity(ModifierOf(commands[i - 1]), ModifierOf(commands[i])) {
        assert commands[i] == rest[i - 1] && (i > 1 ==> commands[i - 1] == rest[i - 2]);
      }
    }
  }

  lemma FadedFirst(command: DrawCommand, from: Modifier)
    ensures Faded(command, from, from.bold) == command <==> KeepsIntensity(from, ModifierOf(command))
    ensures KeepsIntensity(from, ModifierOf(command)) ==> BoldAfter(from.bold, from, ModifierOf(command)) == ModifierOf(command).bold
  {
  }

  /** As long as nothing was lost, all commands reach the screen unchanged exactly when
      no put drops dim alone. */
  lemma {:induction false} FadedExactly(commands: seq<DrawCommand>, from: Modifier)
    ensures FadedAll(commands, from, from.bold) == commands
            <==> KeepsBold(commands) && (commands != [] ==> KeepsIntensity(from, ModifierOf(commands[0])))
    decreases |commands|
  {
    hide KeepsIntensity, ModifierOf, Faded, BoldAfter, KeepsBold;
    if commands == [] {
      NothingLost();
    } else {
      var c, rest := commands[0], commands[1..];
      FadedFirst(c, from);
      KeepsBoldStep(commands);
      FadedStep(commands, from, from.bold);
      var f := FadedAll(commands, from, from.bold);
      assert f == [f[0]] + f[1..] && commands == [c] + rest;
      if f[0] == c {
        FadedExactly(rest, ModifierOf(c));
      }
    }
  }

  lemma NothingLost()
    ensures KeepsBold([])
  {
  }
}

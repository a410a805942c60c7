/**
 The terminal as an interpreter of the control sequences the program writes: a grid,
 a cursor, the current colours and attributes, and a scroll region. A cursor one past
 the last column has a wrap pending; printing there leaves this model (lost).
 */
module Tty {
  import opened Wrappers
  import opened Cells
  import opened Screen
  import opened DiffRenderer

  datatype Attribute =
    | ResetAll
    | ReverseOn | ReverseOff
    | BoldOn | DimOn | NormalIntensity
    | ItalicOn | ItalicOff
    | UnderlineOn | UnderlineOff
    | CrossedOutOn | CrossedOutOff

  datatype Op =
    | MoveTo(x: nat, y: nat)
    | MoveToColumn(x: nat)
    | SetFg(color: Color)
    | SetBg(color: Color)
    | Attr(attribute: Attribute)
    | Print(symbol: Symbol)
    | ClearLine
    | ClearDown
    | ClearAll
    | CarriageReturn
    | LineFeed
    | ReverseIndex
    | SetRegion(first: nat, last: nat)
    | ResetRegion

  /** Some terminals reject a scroll region of a single row. */
  datatype Terminal = Terminal(
    grid: Grid, width: nat, oneRowRegions: bool,
    x: nat, y: nat,
    fg: Color, bg: Color, modifier: Modifier,
    top: nat, bottom: nat,
    lost: bool
  ) {
    ghost predicate Ok() {
      && width > 0 && |grid| > 0
      && (forall i :: 0 <= i < |grid| ==> |grid[i]| == width)
      && x <= width && y < |grid| && top <= bottom < |grid|
    }

    /** Between operations: nothing set that would colour what comes next. */
    predicate IsPlain() {
      fg == Reset && bg == Reset && modifier == PLAIN && !lost
    }

    predicate FullRegion() {
      |grid| > 0 && top == 0 && bottom == |grid| - 1
    }
  }

  function Change(m: Modifier, a: Attribute): Modifier {
    match a
    case ResetAll => PLAIN
    case ReverseOn => m.(reversed := true)
    case ReverseOff => m.(reversed := false)
    case BoldOn => m.(bold := true)
    case DimOn => m.(dim := true)
    case NormalIntensity => m.(bold := false, dim := false)
    case ItalicOn => m.(italic := true)
    case ItalicOff => m.(italic := false)
    case UnderlineOn => m.(underlined := true)
    case UnderlineOff => m.(underlined := false)
    case CrossedOutOn => m.(crossedOut := true)
    case CrossedOutOff => m.(crossedOut := false)
  }

  /** Rows first..last move up by one; the last becomes blank. */
  function ScrollUp(grid: Grid, first: nat, last: nat, blank: Line): (r: Grid)
    requires first <= last < |grid|
    ensures |r| == |grid|
  {
    seq(|grid|, i requires 0 <= i < |grid| =>
      if first <= i < last then grid[i + 1] else if i == last then blank else grid[i])
  }

  function ScrollDown(grid: Grid, first: nat, last: nat, blank: Line): (r: Grid)
    requires first <= last < |grid|
    ensures |r| == |grid|
  {
    seq(|grid|, i requires 0 <= i < |grid| =>
      if first < i <= last then grid[i - 1] else if i == first then blank else grid[i])
  }

  function BlankRows(grid: Grid, from: nat, blank: Line): (r: Grid)
    ensures |r| == |grid|
  {
    seq(|grid|, i requires 0 <= i < |grid| => if i >= from then blank else grid[i])
  }

  function Exec(t: Terminal, op: Op): Terminal
    requires t.Ok()
  {
    match op
    case MoveTo(x, y) => t.(x := Least(x, t.width - 1), y := Least(y, |t.grid| - 1))
    case MoveToColumn(x) => t.(x := Least(x, t.width - 1))
    case SetFg(color) => t.(fg := color)
    case SetBg(color) => t.(bg := color)
    case Attr(a) =>
      if a.ResetAll? then t.(fg := Reset, bg := Reset, modifier := PLAIN) else t.(modifier := Change(t.modifier, a))
    case Print(symbol) =>
      if t.x + Width(symbol) <= t.width then
        t.(grid := t.grid[t.y := Overwrite(t.grid[t.y], t.x, Cell(symbol, t.fg, t.bg, t.modifier))], x := t.x + Width(symbol))
      else t.(lost := true)
    case ClearLine => t.(grid := t.grid[t.y := ClearFrom(t.grid[t.y], Least(t.x, t.width - 1), t.bg)])
    case ClearDown =>
      t.(grid := BlankRows(t.grid[t.y := ClearFrom(t.grid[t.y], Least(t.x, t.width - 1), t.bg)], t.y + 1, BlankLine(t.width, t.bg)))
    case ClearAll => t.(grid := BlankRows(t.grid, 0, BlankLine(t.width, t.bg)))
    case CarriageReturn => t.(x := 0)
    case LineFeed =>
      if t.y == t.bottom then t.(grid := ScrollUp(t.grid, t.top, t.bottom, BlankLine(t.width, t.bg)))
      else if t.y + 1 < |t.grid| then t.(y := t.y + 1)
      else t
    case ReverseIndex =>
      if t.y == t.top then t.(grid := ScrollDown(t.grid, t.top, t.bottom, BlankLine(t.width, t.bg)))
      else if t.y > 0 then t.(y := t.y - 1)
      else t
    case SetRegion(first, last) =>
      if 1 <= first <= last <= |t.grid| && (first < last || t.oneRowRegions) then t.(top := first - 1, bottom := last - 1, x := 0, y := 0)
      else t
    case ResetRegion => t.(top := 0, bottom := |t.grid| - 1, x := 0, y := 0)
  }

  lemma ExecOk(t: Terminal, op: Op)
    requires t.Ok()
    ensures Exec(t, op).Ok()
    ensures Exec(t, op).width == t.width && |Exec(t, op).grid| == |t.grid| && Exec(t, op).oneRowRegions == t.oneRowRegions
  {
    hide BlankLine, ClearFrom, Overwrite;
  }

  /** Single operations, one at a time. */
  lemma ReturnEffect(t: Terminal)
    requires t.Ok()
    ensures Exec(t, CarriageReturn) == t.(x := 0)
  {
    hide BlankLine, ScrollUp, ScrollDown, ClearFrom, BlankRows, Overwrite;
  }

  lemma FeedEffect(t: Terminal)
    requires t.Ok()
    ensures t.y == t.bottom ==> Exec(t, LineFeed) == t.(grid := ScrollUp(t.grid, t.top, t.bottom, BlankLine(t.width, t.bg)))
    ensures t.y != t.bottom && t.y + 1 < |t.grid| ==> Exec(t, LineFeed) == t.(y := t.y + 1)
  {
    hide BlankLine, ScrollUp, ScrollDown, ClearFrom, BlankRows, Overwrite;
  }

  lemma ClearLineEffect(t: Terminal)
    requires t.Ok()
    ensures Exec(t, ClearLine) == t.(grid := t.grid[t.y := ClearFrom(t.grid[t.y], Least(t.x, t.width - 1), t.bg)])
  {
    hide BlankLine, ScrollUp, ScrollDown, ClearFrom, BlankRows, Overwrite;
  }

  function ExecAll(t: Terminal, ops: seq<Op>): (r: Terminal)
    requires t.Ok()
    ensures r.Ok() && r.width == t.width && |r.grid| == |t.grid| && r.oneRowRegions == t.oneRowRegions
    decreases |ops|
  {
    if ops == [] then t
    else
      ExecOk(t, ops[0]);
      ExecAll(Exec(t, ops[0]), ops[1..])
  }

  lemma {:induction false} ExecConcat(t: Terminal, a: seq<Op>, b: seq<Op>)
    requires t.Ok()
    ensures ExecAll(t, a + b) == ExecAll(ExecAll(t, a), b)
    decreases |a|
  {
    hide Exec;
    if a == [] {
      assert a + b == b;
    } else {
      assert (a + b)[1..] == a[1..] + b;
      ExecOk(t, a[0]);
      ExecConcat(Exec(t, a[0]), a[1..], b);
    }
  }

  lemma ExecOne(t: Terminal, op: Op)
    requires t.Ok()
    ensures ExecAll(t, [op]) == Exec(t, op)
  {
    hide Exec;
    assert [op][1..] == [];
  }
}

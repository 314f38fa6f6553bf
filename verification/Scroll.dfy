/** The scroll position of the memory tab over any interleaving of messages, scrolls and clears. */
module Scroll {
  import opened Basics

  /** How many lines there are and which is shown first. */
  datatype Position = Position(count: nat, pos: int)

  /** Message may add lines; visible is the height of the window, which can be 0 or less. */
  datatype Op =
    | Up(step: nat) | Down(step: nat, visible: int) | Home | End(visible: int)
    | Message(added: nat) | Clear

  function Apply(p: Position, op: Op): Position {
    match op
    case Up(step) => p.(pos := Max(0, p.pos - step))
    case Down(step, visible) => p.(pos := Min(p.pos + step, Max(0, p.count - visible)))
    case Home => p.(pos := 0)
    case End(visible) => p.(pos := Max(0, p.count - visible))
    case Message(added) => p.(count := p.count + added)
    case Clear => Position(0, 0)
  }

  /** The position names a line, if there is one. */
  predicate OnData(p: Position) {
    0 <= p.pos <= Max(0, p.count - 1)
  }

  /** What must hold before op for it to land on data: a visible line, or nothing to show, or a
      step that stays on the lines anyway. */
  predicate Lands(p: Position, op: Op) {
    match op
    case Down(step, visible) =>
      visible >= 1 || (p.count == 0 && visible == 0) || p.pos + step <= Max(0, p.count - 1)
    case End(visible) => visible >= 1 || (p.count == 0 && visible == 0)
    case _ => true
  }

  lemma ApplyLandsIff(p: Position, op: Op)
    requires OnData(p)
    ensures OnData(Apply(p, op)) <==> Lands(p, op)
  {
  }

  /** How far a scroll moves: up and down by the whole step as long as that stays on the lines, and
      no further than the ends; home to the first line, and to the end so that the last line is the
      last shown. */
  lemma ScrollsBy(p: Position, step: nat, visible: int)
    requires OnData(p) && visible >= 1
    ensures Apply(p, Up(step)).count == Apply(p, Down(step, visible)).count == Apply(p, Home).count == p.count
    ensures Apply(p, Up(step)).pos == if step <= p.pos then p.pos - step else 0
    ensures var low := if p.count >= visible then p.count - visible else 0;
      Apply(p, Down(step, visible)).pos == (if p.pos + step <= low then p.pos + step else low) &&
      Apply(p, End(visible)) == Position(p.count, low)
    ensures Apply(p, Home).pos == 0
    ensures Apply(p, Clear) == Position(0, 0) && Apply(p, Message(step)) == Position(p.count + step, p.pos)
  {
  }

  /** Down and up again is where one started, as long as neither meets an end. */
  lemma UpUndoesDown(p: Position, step: nat, visible: int)
    requires OnData(p) && p.pos + step + visible <= p.count
    ensures Apply(Apply(p, Down(step, visible)), Up(step)) == p
  {
  }

  /** A failing input: in a window without a line, jumping to the end of a store of one line lands
      past it. */
  lemma EndCanMiss()
    ensures OnData(Position(1, 0)) && Apply(Position(1, 0), End(0)) == Position(1, 1) && !OnData(Position(1, 1))
  {
  }

  function After(p: Position, ops: seq<Op>): Position {
    if ops == [] then p else Apply(After(p, ops[..|ops| - 1]), ops[|ops| - 1])
  }

  ghost predicate AlwaysOnData(p: Position, ops: seq<Op>) {
    forall k :: 0 <= k <= |ops| ==> OnData(After(p, ops[..k]))
  }

  ghost predicate AlwaysLands(p: Position, ops: seq<Op>) {
    forall k :: 0 <= k < |ops| ==> Lands(After(p, ops[..k]), ops[k])
  }

  lemma AfterStep(p: Position, ops: seq<Op>, k: nat)
    requires k < |ops|
    ensures After(p, ops[..k + 1]) == Apply(After(p, ops[..k]), ops[k])
  {
    assert ops[..k + 1][..k] == ops[..k];
  }

  /** Over every interleaving the position is always on data if and only if every scroll meets
      the condition of Lands when it is made. */
  lemma AlwaysOnDataIff(p: Position, ops: seq<Op>)
    requires OnData(p)
    ensures AlwaysOnData(p, ops) <==> AlwaysLands(p, ops)
  {
    if AlwaysOnData(p, ops) {
      forall k | 0 <= k < |ops|
        ensures Lands(After(p, ops[..k]), ops[k])
      {
        AfterStep(p, ops, k);
        ApplyLandsIff(After(p, ops[..k]), ops[k]);
      }
    }
    if AlwaysLands(p, ops) {
      forall k | 0 <= k <= |ops|
        ensures OnData(After(p, ops[..k]))
      {
        LandsSoFar(p, ops, k);
      }
    }
  }

  lemma {:induction false} LandsSoFar(p: Position, ops: seq<Op>, k: nat)
    requires OnData(p) && AlwaysLands(p, ops) && k <= |ops|
    ensures OnData(After(p, ops[..k]))
  {
    if k > 0 {
      LandsSoFar(p, ops, k - 1);
      AfterStep(p, ops, k - 1);
      ApplyLandsIff(After(p, ops[..k - 1]), ops[k - 1]);
    }
  }

  /** In a window that shows at least one line the position never leaves the data. */
  lemma VisibleStaysOnData(p: Position, ops: seq<Op>)
    requires OnData(p)
    requires forall k :: 0 <= k < |ops| ==>
      (ops[k].Down? ==> ops[k].visible >= 1) && (ops[k].End? ==> ops[k].visible >= 1)
    ensures AlwaysOnData(p, ops)
  {
    AlwaysOnDataIff(p, ops);
  }
}

/**
 * The client's player positions: the fifteen codes, the option list shown in
 * forms, the code-to-label table, and the colour each code is drawn in.
 */
module Positions {
  import opened Wrappers

  /** The position codes, in the order the client's union type declares them. */
  datatype Position = GK | LB | CB | RB | LWB | RWB | CDM | CM | LM | RM | CAM | RW | LW | ST | CF

  /** Every code, in declaration order. */
  const Declared: seq<Position> := [GK, LB, CB, RB, LWB, RWB, CDM, CM, LM, RM, CAM, RW, LW, ST, CF]

  /** The text a code is sent and stored as. */
  function Code(p: Position): string {
    match p
    case GK => "GK" case LB => "LB" case CB => "CB" case RB => "RB"
    case LWB => "LWB" case RWB => "RWB" case CDM => "CDM" case CM => "CM"
    case LM => "LM" case RM => "RM" case CAM => "CAM" case RW => "RW"
    case LW => "LW" case ST => "ST" case CF => "CF"
  }

  /** Reads a code back; any other text is no position. */
  function Parse(s: string): Option<Position> {
    if s == "GK" then Some(GK) else if s == "LB" then Some(LB)
    else if s == "CB" then Some(CB) else if s == "RB" then Some(RB)
    else if s == "LWB" then Some(LWB) else if s == "RWB" then Some(RWB)
    else if s == "CDM" then Some(CDM) else if s == "CM" then Some(CM)
    else if s == "LM" then Some(LM) else if s == "RM" then Some(RM)
    else if s == "CAM" then Some(CAM) else if s == "RW" then Some(RW)
    else if s == "LW" then Some(LW) else if s == "ST" then Some(ST)
    else if s == "CF" then Some(CF)
    else None
  }

  /** Parse is the exact inverse of Code: every code reads back, and only codes read as positions. */
  lemma CodeRoundTrip(p: Position, s: string)
    ensures Parse(Code(p)) == Some(p)
    ensures Parse(s) == Some(p) ==> s == Code(p)
  {
  }

  /** `mapPositionToLabel`. */
  function Label(p: Position): string {
    match p
    case GK => "Goalkeeper"
    case LB => "Left Back"
    case CB => "Center Back"
    case RB => "Right Back"
    case LWB => "Left Wing Back"
    case RWB => "Right Wing Back"
    case CDM => "Central Defensive Midfielder"
    case CM => "Central Midfielder"
    case LM => "Left Midfielder"
    case RM => "Right Midfielder"
    case CAM => "Central Attacking Midfielder"
    case RW => "Right Winger"
    case LW => "Left Winger"
    case ST => "Striker"
    case CF => "Center Forward"
  }

  /** One entry of the `positions` option list (its `label` field is `title` here, `label` being a Dafny keyword). */
  datatype PositionOption = PositionOption(value: Position, title: string)

  /** `positions`: the option list forms offer, written out entry by entry. */
  const Options: seq<PositionOption> := [
    PositionOption(GK, "Goalkeeper"),
    PositionOption(LB, "Left Back"),
    PositionOption(CB, "Center Back"),
    PositionOption(RB, "Right Back"),
    PositionOption(LWB, "Left Wing Back"),
    PositionOption(RWB, "Right Wing Back"),
    PositionOption(CDM, "Central Defensive Midfielder"),
    PositionOption(CM, "Central Midfielder"),
    PositionOption(LM, "Left Midfielder"),
    PositionOption(RM, "Right Midfielder"),
    PositionOption(CAM, "Central Attacking Midfielder"),
    PositionOption(RW, "Right Winger"),
    PositionOption(LW, "Left Winger"),
    PositionOption(ST, "Striker"),
    PositionOption(CF, "Center Forward")
  ]

  /** The place of a code in declaration order. */
  function Ordinal(p: Position): (i: nat)
    ensures i < |Declared| && Declared[i] == p
  {
    match p
    case GK => 0 case LB => 1 case CB => 2 case RB => 3 case LWB => 4
    case RWB => 5 case CDM => 6 case CM => 7 case LM => 8 case RM => 9
    case CAM => 10 case RW => 11 case LW => 12 case ST => 13 case CF => 14
  }

  /**
   * There are fifteen codes; the option list offers each exactly once, in
   * declaration order, under the label the table gives it.
   */
  lemma OptionsListEachCodeOnce()
    ensures |Declared| == 15 && |Options| == 15
    ensures forall i :: 0 <= i < |Options| ==> Options[i].value == Declared[i]
    ensures forall i :: 0 <= i < |Options| ==> Options[i].title == Label(Options[i].value)
  {
  }

  /** Ordinal and Declared are inverse: each code sits at exactly one place of the declaration order. */
  lemma OrdinalIsPlace(i: int, p: Position)
    ensures 0 <= i < |Declared| ==> Ordinal(Declared[i]) == i
    ensures Declared[Ordinal(p)] == p
  {
  }

  /** The colour family a code is drawn in. */
  datatype Hue = Purple | Emerald | Yellow | Blue | Red

  /** A text colour, a lighter background and a border colour, as CSS class names. */
  datatype Palette = Palette(text: string, background: string, border: string)

  /** `positionColors`, written out entry by entry. */
  function Colors(p: Position): Palette {
    match p
    case GK => Palette("text-purple-500", "bg-purple-500/15", "border-purple-500")
    case LB => Palette("text-emerald-500", "bg-emerald-500/15", "border-emerald-500")
    case CB => Palette("text-emerald-500", "bg-emerald-500/15", "border-emerald-500")
    case RB => Palette("text-emerald-500", "bg-emerald-500/15", "border-emerald-500")
    case LWB => Palette("text-emerald-500", "bg-emerald-500/15", "border-emerald-500")
    case RWB => Palette("text-emerald-500", "bg-emerald-500/15", "border-emerald-500")
    case CDM => Palette("text-yellow-300", "bg-yellow-300/15", "border-yellow-500")
    case CM => Palette("text-yellow-300", "bg-yellow-300/15", "border-yellow-500")
    case LM => Palette("text-yellow-300", "bg-yellow-300/15", "border-yellow-500")
    case RM => Palette("text-yellow-300", "bg-yellow-300/15", "border-yellow-500")
    case CAM => Palette("text-yellow-300", "bg-yellow-300/15", "border-yellow-500")
    case RW => Palette("text-blue-500", "bg-blue-500/15", "border-blue-500")
    case LW => Palette("text-blue-500", "bg-blue-500/15", "border-blue-500")
    case ST => Palette("text-red-500", "bg-red-500/15", "border-red-500")
    case CF => Palette("text-red-500", "bg-red-500/15", "border-red-500")
  }

  /** The colour group `position.ts` assigns: goalkeeper, defenders, midfielders, wingers, strikers. */
  function HueOf(p: Position): Hue {
    match p
    case GK => Purple
    case LB | CB | RB | LWB | RWB => Emerald
    case CDM | CM | LM | RM | CAM => Yellow
    case RW | LW => Blue
    case ST | CF => Red
  }

  /** Two codes share a palette exactly when they belong to the same colour family. */
  lemma ColorsFollowHue(p: Position, q: Position)
    ensures Colors(p) == Colors(q) <==> HueOf(p) == HueOf(q)
  {
  }

  /** The squad section of the club page a code belongs to. */
  datatype Line = Goalkeepers | Defenders | Midfielders | Attackers

  /** The section the club page sorts a code into. */
  function LineOf(p: Position): (l: Line)
    ensures l == Goalkeepers <==> HueOf(p) == Purple
    ensures l == Defenders <==> HueOf(p) == Emerald
    ensures l == Midfielders <==> HueOf(p) == Yellow
    ensures l == Attackers <==> HueOf(p) in {Blue, Red}
  {
    match p
    case GK => Goalkeepers
    case LB | CB | RB | LWB | RWB => Defenders
    case CDM | CM | LM | RM | CAM => Midfielders
    case RW | LW | ST | CF => Attackers
  }
}

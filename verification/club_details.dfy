/**
 * The club page: its squad split into four sections by position, and the
 * controls only an administrator sees.
 */
module ClubDetails {
  import opened Wrappers
  import opened Text
  import opened ClientTypes
  import Positions
  import PlayerCard

  /** The four sections the page draws, each in squad order. */
  datatype Squad = Squad(goalkeepers: seq<Player>, defenders: seq<Player>, midfielders: seq<Player>, attackers: seq<Player>)

  /** The section of a player, or None when the stored text is not a known position. */
  function LineOfPlayer(p: Player): Option<Positions.Line> {
    var position := Positions.Parse(p.position);
    if position.Some? then Some(Positions.LineOf(position.value)) else None
  }

  /** The players of `ps` that belong to `line`, in their order in `ps`. */
  function InLine(ps: seq<Player>, line: Positions.Line): seq<Player>
    decreases |ps|
  {
    if |ps| == 0 then []
    else InLine(ps[..|ps| - 1], line) + (if LineOfPlayer(ps[|ps| - 1]) == Some(line) then [ps[|ps| - 1]] else [])
  }

  /** The players of `ps` whose position is no known code. */
  function Unplaced(ps: seq<Player>): seq<Player>
    decreases |ps|
  {
    if |ps| == 0 then []
    else Unplaced(ps[..|ps| - 1]) + (if LineOfPlayer(ps[|ps| - 1]).None? then [ps[|ps| - 1]] else [])
  }

  /** `club?.players`, with a missing club or squad read as no players. */
  function Roster(club: Option<Club>): seq<Player> {
    if club.Some? && club.value.players.Some? then club.value.players.value else []
  }

  /**
   * `categorizePlayers`: one pass over the squad, pushing each player onto
   * the section its position code names; any other text is skipped.
   */
  method Categorize(club: Option<Club>) returns (squad: Squad)
    ensures squad.goalkeepers == InLine(Roster(club), Positions.Goalkeepers)
    ensures squad.defenders == InLine(Roster(club), Positions.Defenders)
    ensures squad.midfielders == InLine(Roster(club), Positions.Midfielders)
    ensures squad.attackers == InLine(Roster(club), Positions.Attackers)
  {
    var goalkeepers, defenders, midfielders, attackers := [], [], [], [];
    var ps := Roster(club);
    var i := 0;
    while i < |ps|
      invariant 0 <= i <= |ps|
      invariant goalkeepers == InLine(ps[..i], Positions.Goalkeepers)
      invariant defenders == InLine(ps[..i], Positions.Defenders)
      invariant midfielders == InLine(ps[..i], Positions.Midfielders)
      invariant attackers == InLine(ps[..i], Positions.Attackers)
    {
      var p := ps[i];
      InLineStep(ps, i);
      SwitchMatchesTable(p);
      var code := p.position;
      if code == "GK" {
        goalkeepers := goalkeepers + [p];
      } else if code == "LB" || code == "CB" || code == "RB" || code == "LWB" || code == "RWB" {
        defenders := defenders + [p];
      } else if code == "CDM" || code == "CM" || code == "LM" || code == "RM" || code == "CAM" {
        midfielders := midfielders + [p];
      } else if code == "RW" || code == "LW" || code == "ST" || code == "CF" {
        attackers := attackers + [p];
      }
      i := i + 1;
    }
    assert ps[..|ps|] == ps;
    squad := Squad(goalkeepers, defenders, midfielders, attackers);
  }

  /** Extending the scanned prefix by one player extends each section by that player at most. */
  lemma InLineStep(ps: seq<Player>, i: nat)
    requires i < |ps|
    ensures forall line :: (InLine(ps[..i + 1], line) ==
      InLine(ps[..i], line) + (if LineOfPlayer(ps[i]) == Some(line) then [ps[i]] else []))
  {
    assert ps[..i + 1][..i] == ps[..i];
  }

  /** The switch's case labels agree with the position table: each listed code goes to its section, and the default case is exactly the unknown texts. */
  lemma SwitchMatchesTable(p: Player)
    ensures p.position == "GK" ==> LineOfPlayer(p) == Some(Positions.Goalkeepers)
    ensures p.position in ["LB", "CB", "RB", "LWB", "RWB"] ==> LineOfPlayer(p) == Some(Positions.Defenders)
    ensures p.position in ["CDM", "CM", "LM", "RM", "CAM"] ==> LineOfPlayer(p) == Some(Positions.Midfielders)
    ensures p.position in ["RW", "LW", "ST", "CF"] ==> LineOfPlayer(p) == Some(Positions.Attackers)
    ensures p.position !in ["GK", "LB", "CB", "RB", "LWB", "RWB", "CDM", "CM", "LM", "RM", "CAM", "RW", "LW", "ST", "CF"] ==>
      LineOfPlayer(p).None?
  {
    var parsed := Positions.Parse(p.position);
    if parsed.Some? {
      Positions.CodeRoundTrip(parsed.value, p.position);
    }
  }

  /** A player is in a section exactly when they are in the squad and their position belongs there. */
  lemma {:induction false} InLineMembers(ps: seq<Player>, line: Positions.Line, x: Player)
    ensures x in InLine(ps, line) <==> x in ps && LineOfPlayer(x) == Some(line)
    decreases |ps|
  {
    if |ps| > 0 {
      var init := ps[..|ps| - 1];
      InLineMembers(init, line, x);
      assert ps == init + [ps[|ps| - 1]];
    }
  }

  /** Every player lands in exactly one section or is dropped, so the sections and the dropped players add up to the squad. */
  lemma {:induction false} SectionsAddUp(ps: seq<Player>)
    ensures |InLine(ps, Positions.Goalkeepers)| + |InLine(ps, Positions.Defenders)|
          + |InLine(ps, Positions.Midfielders)| + |InLine(ps, Positions.Attackers)|
          + |Unplaced(ps)| == |ps|
    decreases |ps|
  {
    if |ps| > 0 {
      SectionsAddUp(ps[..|ps| - 1]);
    }
  }

  /** The one-section cards of a group: ranks restart at #1 in every section. */
  function Cards(group: seq<Player>, admin: bool): (cards: seq<PlayerCard.CardView>)
    ensures |cards| == |group|
  {
    seq(|group|, i requires 0 <= i < |group| => PlayerCard.Card(group[i], i, admin))
  }

  /** What the club page shows: whether the edit/delete controls appear, and the four grids of cards. */
  datatype ClubPage = ClubPage(controls: bool, sections: seq<seq<PlayerCard.CardView>>)

  /** The page for a signed-in role (None when nobody is signed in). */
  function Page(role: Option<string>, squad: Squad): ClubPage {
    var admin := role == Some("ADMIN");
    ClubPage(admin, [Cards(squad.goalkeepers, admin), Cards(squad.defenders, admin),
                     Cards(squad.midfielders, admin), Cards(squad.attackers, admin)])
  }

  /** Edit/delete and every per-player remove button appear exactly for an administrator; each card is ranked by its place in its own section. */
  lemma AdminOnlyControls(role: Option<string>, squad: Squad)
    ensures Page(role, squad).controls <==> role == Some("ADMIN")
    ensures forall k, i :: 0 <= k < |Page(role, squad).sections| && 0 <= i < |Page(role, squad).sections[k]| ==>
      (Page(role, squad).sections[k][i].removeButton <==> role == Some("ADMIN"))
    ensures forall k, i :: 0 <= k < |Page(role, squad).sections| && 0 <= i < |Page(role, squad).sections[k]| ==>
      Page(role, squad).sections[k][i].rank == "#" + IntToString(i + 1)
  {
  }
}

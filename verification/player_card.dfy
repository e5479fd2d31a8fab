/** The card the client draws for one player in a grid of players. */
module PlayerCard {
  import opened Wrappers
  import opened Text
  import opened ClientTypes
  import Positions

  /**
   * The heading: a name without a space is shown as it is; otherwise its
   * first character, ". ", and everything from the first space on.
   */
  function DisplayName(name: string): (r: string)
    ensures ' ' !in name ==> r == name
  {
    var k := IndexOf(name, ' ');
    if k == -1 then name else name[..1] + ". " + name[k..]
  }

  /** Only the first space matters: the rest of the name, spaces included, is kept verbatim. */
  lemma {:induction false} OnlyFirstSpaceMatters(first: string, rest: string)
    requires |first| > 0 && ' ' !in first
    ensures DisplayName(first + " " + rest) == [first[0]] + ".  " + rest
  {
    var name := first + " " + rest;
    var k := IndexOf(name, ' ');
    assert name[|first|] == ' ';
    assert name[k..] == " " + rest;
    assert name[..1] == [first[0]];
  }

  /** A first name and a surname: "Lionel Messi" is headed "L.  Messi", with two spaces. */
  lemma LionelMessi()
    ensures DisplayName("Lionel Messi") == "L.  Messi"
  {
    var first, rest := "Lionel", "Messi";
    assert first + " " + rest == "Lionel Messi";
    assert ' ' !in first;
    OnlyFirstSpaceMatters(first, rest);
    assert [first[0]] + ".  " + rest == "L.  Messi";
  }

  /** What a card shows that depends on its inputs. */
  datatype CardView = CardView(
    link: string,
    heading: string,
    rank: string,
    positionTitle: Option<string>,
    palette: Option<Positions.Palette>,
    clubLogo: Option<string>,
    removeButton: bool)

  /** The card of the player at `index` in its grid; `canRemove` says whether a remove handler was passed. */
  function Card(player: Player, index: int, canRemove: bool): (c: CardView)
    ensures c.clubLogo.Some? <==> player.club.Some?
    ensures c.clubLogo.Some? ==> c.clubLogo.value == player.club.value.logoUrl
    ensures c.removeButton <==> canRemove
    ensures c.positionTitle.Some? <==> Positions.Parse(player.position).Some?
  {
    var position := Positions.Parse(player.position);
    CardView(
      "/players/" + IntToString(player.id),
      DisplayName(player.name),
      "#" + IntToString(index + 1),
      if position.Some? then Some(Positions.Label(position.value)) else None,
      if position.Some? then Some(Positions.Colors(position.value)) else None,
      if player.club.Some? then Some(player.club.value.logoUrl) else None,
      canRemove)
  }

  /** The rank label reads back as the one-based place of the card in its grid. */
  lemma RankIsOneBased(player: Player, index: int, canRemove: bool)
    ensures Card(player, index, canRemove).rank[0] == '#'
    ensures IsNumeral(Card(player, index, canRemove).rank[1..])
    ensures ParseInt(Card(player, index, canRemove).rank[1..]) == index + 1
  {
    var c := Card(player, index, canRemove);
    assert c.rank[1..] == IntToString(index + 1);
    IntToStringRoundTrip(index + 1);
  }

  /** The card links to its own player: the link is "/players/" then a numeral that reads back as the player's id. */
  lemma LinkNamesPlayer(player: Player, index: int, canRemove: bool)
    ensures |Card(player, index, canRemove).link| > 9 && Card(player, index, canRemove).link[..9] == "/players/"
    ensures IsNumeral(Card(player, index, canRemove).link[9..])
    ensures ParseInt(Card(player, index, canRemove).link[9..]) == player.id
  {
    var c := Card(player, index, canRemove);
    assert c.link[9..] == IntToString(player.id);
    IntToStringRoundTrip(player.id);
  }
}

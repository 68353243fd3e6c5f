/**
 * Names of the sides of a debate (src/tournaments/rounds/side_names.rs):
 * fixed names for the one- and two-teams-per-side formats, and a numbered
 * Prop/Opp fallback for every other position.
 */
module SideNames {
  import opened Wrappers
  import Text

  /** The fixed names, or None where the fallback applies. */
  function FixedName(teamsPerSide: int, side: int, seqNo: int, short: bool): Option<string>
  {
    if teamsPerSide == 1 && side == 0 && seqNo == 0 then Some(if short then "Gov" else "Government")
    else if teamsPerSide == 1 && side == 1 && seqNo == 0 then Some(if short then "Opp" else "Opposition")
    else if teamsPerSide == 2 && side == 0 && seqNo == 0 then Some(if short then "OG" else "Opening Government")
    else if teamsPerSide == 2 && side == 1 && seqNo == 0 then Some(if short then "OO" else "Opening Opposition")
    else if teamsPerSide == 2 && side == 0 && seqNo == 1 then Some(if short then "CG" else "Closing Government")
    else if teamsPerSide == 2 && side == 1 && seqNo == 1 then Some(if short then "CO" else "Closing Opposition")
    else None
  }

  /**
   * name_of_side; None stands for the unreachable! panic of the fallback
   * when the side is neither 0 nor 1.
   */
  function NameOfSide(teamsPerSide: int, side: int, seqNo: int, short: bool): (r: Option<string>)
    ensures r.Some? <==> side == 0 || side == 1
    ensures r.Some? ==> r.value != []
    ensures FixedName(teamsPerSide, side, seqNo, short).None? && side == 0 ==>
      r == Some((if short then "Prop" else "Proposition") + " " + Text.IntToString(seqNo))
    ensures FixedName(teamsPerSide, side, seqNo, short).None? && side == 1 ==>
      r == Some((if short then "Opp" else "Opposition") + " " + Text.IntToString(seqNo))
  {
    match FixedName(teamsPerSide, side, seqNo, short)
    case Some(name) => Some(name)
    case None =>
      if side == 0 then Some((if short then "Prop" else "Proposition") + " " + Text.IntToString(seqNo))
      else if side == 1 then Some((if short then "Opp" else "Opposition") + " " + Text.IntToString(seqNo))
      else None
  }

  /** The fixed names of the two formats, in their short and long forms. */
  lemma FixedNamesOfFormats()
    ensures NameOfSide(1, 0, 0, true) == Some("Gov") && NameOfSide(1, 0, 0, false) == Some("Government")
    ensures NameOfSide(1, 1, 0, true) == Some("Opp") && NameOfSide(1, 1, 0, false) == Some("Opposition")
    ensures NameOfSide(2, 0, 0, true) == Some("OG") && NameOfSide(2, 1, 0, true) == Some("OO")
    ensures NameOfSide(2, 0, 1, true) == Some("CG") && NameOfSide(2, 1, 1, true) == Some("CO")
    ensures NameOfSide(2, 0, 1, false) == Some("Closing Government")
    ensures NameOfSide(2, 1, 1, false) == Some("Closing Opposition")
  {
  }
}

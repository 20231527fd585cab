/** The character classes of mapprox/src/class1.c: c2idx maps a `char` to
    its row in a character table and idx2c maps a row back to a character.
    Rows 0..25 are the letters, 26..35 the digits and 36 the space; row 37
    (CHARM_LEN - 1) holds the totals and has no character. */
module CharIndex {
  import opened Callbacks
  import opened CTypes

  /** CHARM_LEN: 26 letters, 10 digits, the space and one total. */
  const CHARM_LEN: nat := 38

  /** The row of the space class, the last one with a character. */
  const SPACE_ROW: nat := 36

  predicate IsLower(c: SignedChar) { 'a' as int <= c <= 'z' as int }
  predicate IsUpper(c: SignedChar) { 'A' as int <= c <= 'Z' as int }
  predicate IsDigit(c: SignedChar) { '0' as int <= c <= '9' as int }

  /** isspace in the C locale: space, \t, \n, \v, \f and \r. Negative
      `char` values are not spaces there. */
  predicate IsSpace(c: SignedChar) { c == ' ' as int || 9 <= c <= 13 }

  /** A character that has a row of its own. */
  predicate IsLegal(c: SignedChar) { IsLower(c) || IsUpper(c) || IsDigit(c) || IsSpace(c) }

  /** c2idx: letters of either case to 0..25, digits to 26..35, whitespace
      to 36, anything else to SIZE_MAX. */
  function C2Idx(c: SignedChar): (i: nat)
    ensures IsLegal(c) ==> i <= SPACE_ROW
    ensures !IsLegal(c) <==> i == SIZE_MAX
    ensures i < 26 <==> IsLower(c) || IsUpper(c)
    ensures 26 <= i < 36 <==> IsDigit(c)
    ensures i == SPACE_ROW <==> IsSpace(c)
  {
    if IsLower(c) then c - 'a' as int
    else if IsUpper(c) then c - 'A' as int
    else if IsDigit(c) then c - '0' as int + 26
    else if IsSpace(c) then SPACE_ROW
    else SIZE_MAX
  }

  /** idx2c: rows 0..25 to 'a'..'z', 26..35 to '0'..'9' and 36 to ' '; any
      other row makes the program die, which is None here. */
  function Idx2C(idx: nat): (r: Option<SignedChar>)
    ensures r.None? <==> idx > SPACE_ROW
    ensures r.Some? ==> IsLegal(r.value) && !IsUpper(r.value)
  {
    if idx < 26 then Some('a' as int + idx)
    else if idx < 36 then Some('0' as int + idx - 26)
    else if idx == SPACE_ROW then Some(' ' as int)
    else None
  }

  /** The character idx2c gives back for a legal character: the lower-case
      letter, the digit itself, or the space for any whitespace. */
  function Canonical(c: SignedChar): SignedChar
  {
    if IsUpper(c) then c - 'A' as int + 'a' as int
    else if IsSpace(c) then ' ' as int
    else c
  }

  /** Every row with a character survives the trip to a character and back. */
  lemma IdxRoundTrip(idx: nat)
    requires idx <= SPACE_ROW
    ensures Idx2C(idx).Some? && C2Idx(Idx2C(idx).value) == idx
  {
  }

  /** A legal character comes back from its row in canonical form. */
  lemma CharRoundTrip(c: SignedChar)
    requires IsLegal(c)
    ensures Idx2C(C2Idx(c)) == Some(Canonical(c))
  {
  }

  /** Two characters share a row exactly when they have the same canonical
      form: upper and lower case meet, as do all whitespace characters. */
  lemma SameRow(c: SignedChar, d: SignedChar)
    requires IsLegal(c) && IsLegal(d)
    ensures C2Idx(c) == C2Idx(d) <==> Canonical(c) == Canonical(d)
  {
    CharRoundTrip(c);
    CharRoundTrip(d);
    if Canonical(c) == Canonical(d) {
      assert C2Idx(Canonical(c)) == C2Idx(c);
    }
  }
}

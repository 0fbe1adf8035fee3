/** The opponent's table of attack moves (OpponentAI.AttackMove) and the
    repair that OpponentAI.ValidateAttacks performs on it at start-up. */
module AttackTable {

  /** A slot of the table: `None` stands for a null C# reference. */
  datatype Option<T> = None | Some(value: T)

  /** One attack move. The particle-effect handle is not modelled. */
  datatype AttackMove = AttackMove(animationName: string, attackDamages: int, range: real)

  /** The range every built-in move gets (2.5f in the source). */
  const DefaultRange: real := 2.5

  function Digit(d: nat): (c: char)
    requires d < 10
    ensures '0' <= c <= '9'
    ensures c as int - '0' as int == d
  {
    "0123456789"[d]
  }

  /** The number a string of decimal digits denotes, most significant first. */
  function DecimalValue(s: string): nat
    requires forall k :: 0 <= k < |s| ==> '0' <= s[k] <= '9'
  {
    if |s| == 0 then 0
    else DecimalValue(s[..|s| - 1]) * 10 + (s[|s| - 1] as int - '0' as int)
  }

  /** Decimal rendering of a natural number, as C# string interpolation
      prints it. */
  function NatToString(n: nat): (r: string)
    ensures 0 < |r|
    ensures forall k :: 0 <= k < |r| ==> '0' <= r[k] <= '9'
  {
    if n < 10 then [Digit(n)] else NatToString(n / 10) + [Digit(n % 10)]
  }

  /** The rendering is canonical: no leading zero, and reading it back as a
      decimal gives the number rendered. */
  lemma {:induction false} NatToStringRoundTrip(n: nat)
    ensures NatToString(n)[0] == '0' ==> NatToString(n) == "0"
    ensures DecimalValue(NatToString(n)) == n
  {
    if n >= 10 {
      NatToStringRoundTrip(n / 10);
      var r, p := NatToString(n), NatToString(n / 10);
      assert r[..|r| - 1] == p && r[0] == p[0];
    }
  }

  /** The move ValidateAttacks puts into an empty (null) slot `i`. */
  function DefaultMove(i: nat): AttackMove
  {
    AttackMove("Attack" + NatToString(i + 1) + "Animation", 10 + 5 * i, DefaultRange)
  }

  /** The four moves of the field initialiser, which ValidateAttacks also
      installs when the table is missing or empty. */
  function DefaultAttacks(): seq<Option<AttackMove>>
  {
    [ Some(AttackMove("Attack1Animation", 10, DefaultRange)),
      Some(AttackMove("Attack2Animation", 15, DefaultRange)),
      Some(AttackMove("Attack3Animation", 20, DefaultRange)),
      Some(AttackMove("Attack4Animation", 25, DefaultRange)) ]
  }

  /** One slot after ValidateAttacks: a null slot `i` gets the default move. */
  function Filled(slot: Option<AttackMove>, i: nat): (r: Option<AttackMove>)
    ensures r.Some?
    ensures slot.Some? ==> r == slot
  {
    if slot.None? then Some(DefaultMove(i)) else slot
  }

  /** The table ValidateAttacks leaves behind, given the table it found
      (a null table is passed as the empty sequence: both take the same branch). */
  function ValidatedTable(t: seq<Option<AttackMove>>): (r: seq<Option<AttackMove>>)
    ensures 0 < |r|
    ensures forall i :: 0 <= i < |r| ==> r[i].Some?
    ensures 0 < |t| ==> |r| == |t|
    ensures forall i :: 0 <= i < |t| && t[i].Some? ==> r[i] == t[i]
  {
    if |t| == 0 then DefaultAttacks()
    else seq(|t|, i requires 0 <= i < |t| => Filled(t[i], i))
  }

  /** A null slot `i` of a non-empty table is filled with damage 10 + 5*i, and
      a missing or empty table becomes the initialiser's four moves. */
  lemma ValidatedTableFillsSlots(t: seq<Option<AttackMove>>)
    ensures forall i :: 0 <= i < |t| && t[i].None? ==>
      ValidatedTable(t)[i] == Some(DefaultMove(i)) && ValidatedTable(t)[i].value.attackDamages == 10 + 5 * i
    ensures |t| == 0 ==> ValidatedTable(t) == DefaultAttacks()
  {
  }

  /** The initialiser's table is exactly what the null-slot rule would produce
      for four null slots: slot i carries "Attack{i+1}Animation" and 10 + 5*i. */
  lemma DefaultAttacksAreDefaultMoves()
    ensures |DefaultAttacks()| == 4
    ensures forall i :: 0 <= i < 4 ==> DefaultAttacks()[i] == Some(DefaultMove(i))
  {
    forall i | 0 <= i < 4 ensures DefaultAttacks()[i] == Some(DefaultMove(i)) {
      assert NatToString(i + 1) == [Digit(i + 1)];
      assert "Attack" + [Digit(i + 1)] + "Animation" == DefaultAttacks()[i].value.animationName;
    }
  }
}

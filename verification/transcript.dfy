/** The chat history kept in the session: a list of role-tagged turns sent
    as-is to the completion service. */
module Transcript {

  datatype Role = System | User | Assistant

  datatype Turn = Turn(role: Role, content: string)

  /** The history used when the session holds none yet: one system turn
      whose content is the placeholder "none". */
  const Initial: seq<Turn> := [Turn(System, "none")]

  /** The shape the question handler keeps: the system turn in slot 0, then
      user turns at odd positions and assistant turns at even positions from
      2 on, so that every question is followed by its answer. */
  predicate WellFormed(t: seq<Turn>) {
    0 < |t| && |t| % 2 == 1 && t[0].role == System &&
    forall i :: 1 <= i < |t| ==> t[i].role == (if i % 2 == 1 then User else Assistant)
  }

  /** Number of turns with role `r`. */
  function CountRole(t: seq<Turn>, r: Role): nat
    decreases |t|
  {
    if |t| == 0 then 0
    else CountRole(t[..|t| - 1], r) + (if t[|t| - 1].role == r then 1 else 0)
  }

  lemma InitialWellFormed()
    ensures WellFormed(Initial) && |Initial| == 1
  {
  }

  /** A well-formed history has exactly one system turn, and as many user
      turns as assistant turns: one per answered question. */
  lemma {:induction false} WellFormedCounts(t: seq<Turn>)
    requires WellFormed(t)
    ensures CountRole(t, System) == 1
    ensures CountRole(t, User) == |t| / 2
    ensures CountRole(t, Assistant) == |t| / 2
    decreases |t|
  {
    if |t| > 1 {
      var shorter := t[..|t| - 2];
      assert t[..|t| - 1][..|t| - 2] == shorter;
      assert forall i :: 1 <= i < |shorter| ==> shorter[i] == t[i];
      WellFormedCounts(shorter);
    } else {
      assert t[..0] == [];
    }
  }

  /** The system turn is the only one of its role, and it is in slot 0. */
  lemma WellFormedSystemOnlyAtZero(t: seq<Turn>, i: int)
    requires WellFormed(t) && 0 <= i < |t|
    ensures t[i].role == System <==> i == 0
  {
  }
}

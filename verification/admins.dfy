/**
 * `adminsGroup(userNumber, participants)` from utilitarios.js: whether the
 * first participant whose serialized id is `userNumber` is a group admin.
 */
module Utilitarios {
  import opened Wrappers

  /** A group participant: `id._serialized` and `isAdmin`. */
  datatype Participant = Participant(id: string, isAdmin: bool)

  /** `participants.find(p => p.id._serialized == userNumber)`, as the index found. */
  function FindParticipant(userNumber: string, participants: seq<Participant>): (r: Option<nat>)
    ensures r.None? <==> forall i :: 0 <= i < |participants| ==> participants[i].id != userNumber
    ensures r.Some? ==>
      r.value < |participants| && participants[r.value].id == userNumber &&
      forall j :: 0 <= j < r.value ==> participants[j].id != userNumber
  {
    if participants == [] then None
    else if participants[0].id == userNumber then Some(0)
    else
      match FindParticipant(userNumber, participants[1..])
      case None => None
      case Some(k) => Some(k + 1)
  }

  /** `false` when nobody matches, otherwise the first match's `isAdmin`. */
  function AdminsGroup(userNumber: string, participants: seq<Participant>): (r: bool)
    ensures (forall i :: 0 <= i < |participants| ==> participants[i].id != userNumber) ==> !r
    ensures r <==> (exists i :: 0 <= i < |participants| && participants[i].id == userNumber &&
                              participants[i].isAdmin &&
                              forall j :: 0 <= j < i ==> participants[j].id != userNumber)
  {
    match FindParticipant(userNumber, participants)
    case None => false
    case Some(i) => participants[i].isAdmin
  }

  /** Participants after a match never change the answer. */
  lemma {:induction false} AdminsGroupIgnoresLater(userNumber: string, participants: seq<Participant>, later: seq<Participant>)
    requires exists i :: 0 <= i < |participants| && participants[i].id == userNumber
    ensures AdminsGroup(userNumber, participants + later) == AdminsGroup(userNumber, participants)
  {
    var i := FindParticipant(userNumber, participants).value;
    var all := participants + later;
    assert all[i] == participants[i];
    assert forall j :: 0 <= j < i ==> all[j] == participants[j];
    assert FindParticipant(userNumber, all) == Some(i);
  }

  /** The participants whose id is `userNumber`, in list order. */
  function WithId(userNumber: string, participants: seq<Participant>): (r: seq<Participant>)
    ensures forall p :: p in r ==> p in participants && p.id == userNumber
  {
    if participants == [] then []
    else if participants[0].id == userNumber then [participants[0]] + WithId(userNumber, participants[1..])
    else WithId(userNumber, participants[1..])
  }

  /**
   * Participants with other ids never change the answer: only the matching
   * ones, in their order, matter.
   */
  lemma {:induction false} AdminsGroupOnlyMatchesMatter(userNumber: string, participants: seq<Participant>)
    ensures AdminsGroup(userNumber, participants) == AdminsGroup(userNumber, WithId(userNumber, participants))
    ensures AdminsGroup(userNumber, participants) ==
      (WithId(userNumber, participants) != [] && WithId(userNumber, participants)[0].isAdmin)
  {
    if participants != [] {
      var tail := participants[1..];
      AdminsGroupOnlyMatchesMatter(userNumber, tail);
      if participants[0].id != userNumber {
        assert FindParticipant(userNumber, participants) ==
          match FindParticipant(userNumber, tail) case None => None case Some(k) => Some(k + 1);
      }
    }
  }
}

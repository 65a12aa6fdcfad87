/** The row states of `local_store/state_machines.rs`. */
module StateMachines {
  import opened Common

  datatype BodyState =
    | LocalPlainAvailable
    | LocalEncryptedAvailable
    | RemoteArchiveOnly
    | DeliveryStoreOnly
    | DeletedForMe
    | DeletedForEveryone
    | Unavailable

  datatype MediaState = ThumbnailOnly | OriginalLocal | RemoteOriginal | DownloadInProgress | Evicted | Deleted

  datatype ArchiveState = NotArchived | ArchivePending | ArchiveUploaded | ArchiveVerified | ArchiveCompacted

  datatype BackupState = NotBackedUp | BackupPending | BackupUploaded | BackupManifestCommitted | BackupExpired

  /** The state diagram of a message body. */
  function TryTransition(from: BodyState, to: BodyState): Option<BodyState> {
    match (from, to)
    case (LocalPlainAvailable, LocalEncryptedAvailable) => Some(to)
    case (LocalEncryptedAvailable, LocalPlainAvailable) => Some(to)
    case (LocalPlainAvailable, RemoteArchiveOnly) => Some(to)
    case (RemoteArchiveOnly, LocalPlainAvailable) => Some(to)
    case (LocalPlainAvailable, DeletedForMe) => Some(to)
    case (LocalPlainAvailable, DeletedForEveryone) => Some(to)
    case (DeliveryStoreOnly, LocalPlainAvailable) => Some(to)
    case (RemoteArchiveOnly, Unavailable) => Some(to)
    case _ => None
  }

  predicate IsEdge(from: BodyState, to: BodyState) {
    TryTransition(from, to).Some?
  }

  predicate IsDeleted(state: BodyState) {
    state == DeletedForMe || state == DeletedForEveryone
  }

  /** A path of the state diagram in which a state may also stay as it is. */
  ghost predicate LegalPath(states: seq<BodyState>) {
    forall i {:trigger states[i]} :: 0 <= i < |states| - 1 ==>
      states[i + 1] == states[i] || IsEdge(states[i], states[i + 1])
  }

  /** The deleted states are terminal: a legal path that enters one ends in it. */
  lemma {:induction false} DeletedIsTerminal(states: seq<BodyState>, i: nat, j: nat)
    requires LegalPath(states) && i <= j < |states| && IsDeleted(states[i])
    ensures states[j] == states[i]
    decreases j - i
  {
    if i < j {
      DeletedIsTerminal(states, i, j - 1);
    }
  }

  /** The states a body never leaves, and the one it never comes back to. */
  lemma TerminalIff(state: BodyState)
    ensures (forall to :: !IsEdge(state, to)) <==> state in {DeletedForMe, DeletedForEveryone, Unavailable}
    ensures (forall from :: !IsEdge(from, state)) <==> state == DeliveryStoreOnly
  {
    assert IsEdge(LocalPlainAvailable, LocalEncryptedAvailable);
    assert IsEdge(LocalEncryptedAvailable, LocalPlainAvailable);
    assert IsEdge(LocalPlainAvailable, RemoteArchiveOnly);
    assert IsEdge(RemoteArchiveOnly, Unavailable);
    assert IsEdge(LocalPlainAvailable, DeletedForMe);
    assert IsEdge(LocalPlainAvailable, DeletedForEveryone);
    assert IsEdge(DeliveryStoreOnly, LocalPlainAvailable);
  }
}

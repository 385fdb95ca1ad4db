/** The profile manager over the real keyring vault: every request, every failed write, every durable state. */
module ProfileRuns {
  import opened Text
  import opened Profiles
  import ProfileApart
  import Vault
  import VaultRuns
  import OsKeyring

  /** The outcome of one access to the document file; the keyring has a schedule of its own. */
  datatype Fault = Fine | Failing

  /** One durable state: the document file and what the keyring's entries load. */
  datatype Durable = Durable(document: Document, vault: VaultEntries)

  lemma UpdateThenRemove<K, V>(m: map<K, V>, k: K, v: V)
    ensures m[k := v] - {k} == m - {k}
    ensures m - {k} - {k} == m - {k}
  {
  }

  ghost predicate DiffersAt(state: Durable, profiles: map<ProfileId, Profile>, vault: VaultEntries, apart: bool,
                            id: ProfileId) {
    && state.document.profiles - {id} == profiles - {id}
    && (apart ==> state.vault - {DeterministicReference(id)} == vault - {DeterministicReference(id)})
  }

  ghost predicate AllDiffer(log: seq<Durable>, from: nat, profiles: map<ProfileId, Profile>, vault: VaultEntries, apart: bool,
                            id: ProfileId) {
    forall i :: from <= i < |log| ==> DiffersAt(log[i], profiles, vault, apart, id)
  }

  lemma DifferOn(log: seq<Durable>, from: nat, middle: nat, profiles: map<ProfileId, Profile>, vault: VaultEntries,
                 apart: bool, id: ProfileId)
    requires from <= middle <= |log|
    requires AllDiffer(log[..middle], from, profiles, vault, apart, id) && AllDiffer(log, middle, profiles, vault, apart, id)
    ensures AllDiffer(log, from, profiles, vault, apart, id)
  {
    forall i | from <= i < |log| ensures DiffersAt(log[i], profiles, vault, apart, id) {
      if i < middle {
        assert log[i] == log[..middle][i];
      }
    }
  }

  /** What a vault holds at one reference: nothing, or what a load of it gives. */
  function Held(vault: VaultEntries, reference: string): (held: Option<Vault.Result<string>>) {
    if reference in vault then Some(vault[reference]) else None
  }

  /** Every profile that the document mentions is one of these. */
  ghost predicate Within(document: Document, ids: set<ProfileId>) {
    && document.profiles.Keys <= ids
    && forall r :: r in document.recovery ==> r.profile in ids
  }

  /** The durable states of a stretch of keyring writes. */
  ghost function Logged(document: Document, writes: seq<Vault.Entries>, family: set<string>): (states: seq<Durable>)
    ensures |states| == |writes|
    ensures forall i :: 0 <= i < |writes| ==> states[i] == Durable(document, VaultRuns.View(writes[i], family))
  {
    seq(|writes|, i requires 0 <= i < |writes| => Durable(document, VaultRuns.View(writes[i], family)))
  }

  ghost predicate Submap(small: VaultEntries, big: VaultEntries) {
    forall k :: k in small ==> k in big && small[k] == big[k]
  }

  /** What recovery may turn a state into: the same profiles over a part of the same vault. */
  ghost predicate RecoveredFrom(state: Durable, profiles: map<ProfileId, Profile>, vault: VaultEntries, apart: bool) {
    state.document.profiles == profiles && (apart ==> Submap(state.vault, vault))
  }

  ghost predicate AllRecovered(log: seq<Durable>, from: nat, profiles: map<ProfileId, Profile>, vault: VaultEntries,
                               apart: bool) {
    forall i :: from <= i < |log| ==> RecoveredFrom(log[i], profiles, vault, apart)
  }

  /** States that keep the profiles and lose at most one entry are recovered states. */
  lemma FinishedIsRecovered(log: seq<Durable>, from: nat, profiles: map<ProfileId, Profile>, vault: VaultEntries,
                            reference: string, apart: bool)
    requires forall i :: from <= i < |log| ==> log[i].document.profiles == profiles
    requires apart ==> forall i :: from <= i < |log| ==> log[i].vault == vault || log[i].vault == vault - {reference}
    ensures AllRecovered(log, from, profiles, vault, apart)
  {
    assert Submap(vault - {reference}, vault) && Submap(vault, vault);
  }

  /** Recovery of what recovery has left. */
  lemma RecoveredOn(log: seq<Durable>, from: nat, middle: nat, profiles: map<ProfileId, Profile>, vault: VaultEntries,
                    left: VaultEntries, apart: bool)
    requires from <= middle <= |log| && (apart ==> Submap(left, vault))
    requires AllRecovered(log[..middle], from, profiles, vault, apart) && AllRecovered(log, middle, profiles, left, apart)
    ensures AllRecovered(log, from, profiles, vault, apart)
  {
    forall i | from <= i < |log| ensures RecoveredFrom(log[i], profiles, vault, apart) {
      if i < middle {
        assert log[i] == log[..middle][i];
      }
    }
  }

  /** Each state of a stretch of writes is consistent with this document and differs at one reference only. */
  ghost predicate StretchAt(document: Document, before: Vault.Entries, writes: seq<Vault.Entries>, after: Vault.Entries,
                            ids: set<ProfileId>, id: ProfileId) {
    && VaultRuns.View(after, References(ids)) - {DeterministicReference(id)}
       == VaultRuns.View(before, References(ids)) - {DeterministicReference(id)}
    && (forall i :: 0 <= i < |writes| ==> Consistent(document, VaultRuns.View(writes[i], References(ids))))
    && forall i :: 0 <= i < |writes| ==>
         VaultRuns.View(writes[i], References(ids)) - {DeterministicReference(id)}
         == VaultRuns.View(before, References(ids)) - {DeterministicReference(id)}
  }

  lemma SameKeysKeep(document: Document, vault: VaultEntries, reference: string, value: Vault.Result<string>)
    requires Consistent(document, vault) && reference in vault
    ensures Consistent(document, vault[reference := value])
  {
  }

  /** Writes that change a recorded reference only, in whatever way, leave consistent states. */
  lemma StretchKeeps(document: Document, before: Vault.Entries, writes: seq<Vault.Entries>, family: set<string>,
                     reference: string)
    requires Consistent(document, VaultRuns.View(before, family)) && Recorded(document, reference)
    requires forall i :: 0 <= i < |writes| ==>
               VaultRuns.View(writes[i], family) - {reference} == VaultRuns.View(before, family) - {reference}
    ensures forall i :: 0 <= i < |writes| ==> Consistent(document, VaultRuns.View(writes[i], family))
  {
    forall i | 0 <= i < |writes| ensures Consistent(document, VaultRuns.View(writes[i], family)) {
      VaultStepKeeps(document, VaultRuns.View(before, family), reference, VaultRuns.View(writes[i], family));
    }
  }

  /** A save of a recorded reference: every state on the way is consistent and differs there only. */
  lemma SaveStretch(document: Document, before: Vault.Entries, faults: VaultRuns.Faults, clock: nat,
                    ids: set<ProfileId>, id: ProfileId, secret: string, t: VaultRuns.Trace<string>)
    requires Apart(ids) && id in ids && Recorded(document, DeterministicReference(id))
    requires Consistent(document, VaultRuns.View(before, References(ids)))
    requires t == VaultRuns.Saving(before, faults, clock, DeterministicReference(id), secret)
    ensures VaultRuns.Ends(before, t) && StretchAt(document, before, t.writes, t.entries, ids, id)
    ensures t.result.Ok? ==> (VaultRuns.View(t.entries, References(ids))
                              == VaultRuns.View(before, References(ids))[DeterministicReference(id) := Vault.Ok(secret)])
  {
    ApartIff(ids);
    DeterministicReferenceIsAccepted(id);
    VaultRuns.SaveRefinesMap(before, faults, clock, References(ids), DeterministicReference(id), secret);
    StretchKeeps(document, before, t.writes, References(ids), DeterministicReference(id));
  }

  /** A deletion of a recorded reference: every state on the way is consistent, and the entry is there or gone. */
  lemma DeleteStretch(document: Document, before: Vault.Entries, faults: VaultRuns.Faults, clock: nat,
                      ids: set<ProfileId>, id: ProfileId, t: VaultRuns.Trace<()>)
    requires Apart(ids) && id in ids && Recorded(document, DeterministicReference(id))
    requires Consistent(document, VaultRuns.View(before, References(ids)))
    requires t == VaultRuns.Deleting(before, faults, clock, DeterministicReference(id))
    ensures VaultRuns.Ends(before, t) && StretchAt(document, before, t.writes, t.entries, ids, id)
    ensures VaultRuns.StepsBetween(t, References(ids), VaultRuns.View(before, References(ids)),
                                   VaultRuns.View(before, References(ids)) - {DeterministicReference(id)})
  {
    ApartIff(ids);
    VaultRuns.DeleteRefinesMap(before, faults, clock, References(ids), DeterministicReference(id));
    StretchKeeps(document, before, t.writes, References(ids), DeterministicReference(id));
  }

  /** A replacement of a linked secret: every state on the way has the old secret or the new one. */
  lemma ReplaceStretch(document: Document, before: Vault.Entries, faults: VaultRuns.Faults, clock: nat,
                       ids: set<ProfileId>, id: ProfileId, secret: string, t: VaultRuns.Trace<()>)
    requires Apart(ids) && id in ids && Links(document, id, DeterministicReference(id))
    requires Consistent(document, VaultRuns.View(before, References(ids)))
    requires t == VaultRuns.Replacing(before, faults, clock, DeterministicReference(id), secret)
    ensures VaultRuns.Ends(before, t) && StretchAt(document, before, t.writes, t.entries, ids, id)
    ensures VaultRuns.StepsBetween(t, References(ids), VaultRuns.View(before, References(ids)),
                                   VaultRuns.View(before, References(ids))[DeterministicReference(id) := Vault.Ok(secret)])
    ensures DeterministicReference(id) in before
  {
    var reference, vault := DeterministicReference(id), VaultRuns.View(before, References(ids));
    ApartIff(ids);
    VaultRuns.ReplaceRefinesMap(before, faults, clock, References(ids), reference, secret);
    SameKeysKeep(document, vault, reference, Vault.Ok(secret));
    UpdateThenRemove(vault, reference, Vault.Ok(secret));
  }

  /** What the three vault calls do at their own reference, whatever the other identities are. */
  lemma OwnSave(before: Vault.Entries, faults: VaultRuns.Faults, clock: nat, ids: set<ProfileId>, id: ProfileId,
                secret: string, t: VaultRuns.Trace<string>)
    requires id in ids && t == VaultRuns.Saving(before, faults, clock, DeterministicReference(id), secret)
    ensures VaultRuns.Ends(before, t)
    ensures t.result.Ok? ==>
              Held(VaultRuns.View(t.entries, References(ids)), DeterministicReference(id)) == Some(Vault.Ok(secret))
    ensures Vault.ValidSecret(secret) && VaultRuns.Quiet(faults) ==> t.result.Ok?
  {
    DeterministicReferenceIsAccepted(id);
    if Vault.ValidSecret(secret) {
      VaultRuns.SavingIsAtomic(before, faults, clock, DeterministicReference(id), secret);
    }
    if VaultRuns.Quiet(faults) {
      VaultRuns.QuietSucceeds(before, faults, clock, DeterministicReference(id), secret);
    }
  }

  lemma OwnDelete(before: Vault.Entries, faults: VaultRuns.Faults, clock: nat, ids: set<ProfileId>, id: ProfileId,
                  t: VaultRuns.Trace<()>)
    requires t == VaultRuns.Deleting(before, faults, clock, DeterministicReference(id))
    ensures VaultRuns.Ends(before, t)
    ensures forall i :: 0 <= i < |t.writes| ==> DeterministicReference(id) !in VaultRuns.View(t.writes[i], References(ids))
    ensures if t.result.Ok? then DeterministicReference(id) !in VaultRuns.View(t.entries, References(ids))
            else t.entries == before && t.writes == []
    ensures VaultRuns.Quiet(faults) ==> t.result.Ok?
  {
    VaultRuns.DeletingVanishes(before, faults, clock, DeterministicReference(id));
    if VaultRuns.Quiet(faults) {
      VaultRuns.QuietSucceeds(before, faults, clock, DeterministicReference(id), "");
    }
  }

  lemma OwnReplace(before: Vault.Entries, faults: VaultRuns.Faults, clock: nat, ids: set<ProfileId>, id: ProfileId,
                   secret: string, t: VaultRuns.Trace<()>)
    requires id in ids && t == VaultRuns.Replacing(before, faults, clock, DeterministicReference(id), secret)
    ensures VaultRuns.Ends(before, t)
    ensures var reference, was := DeterministicReference(id), VaultRuns.View(before, References(ids));
            && (forall i :: 0 <= i < |t.writes| ==>
                  || Held(VaultRuns.View(t.writes[i], References(ids)), reference) == Held(was, reference)
                  || Held(VaultRuns.View(t.writes[i], References(ids)), reference) == Some(Vault.Ok(secret)))
            && Held(VaultRuns.View(t.entries, References(ids)), reference)
               == if t.result.Ok? then Some(Vault.Ok(secret)) else Held(was, reference)
  {
    VaultRuns.ReplacingIsAtomic(before, faults, clock, DeterministicReference(id), secret);
  }

  /** At its own reference every state has the old secret or the new one, and the result says which is left. */
  ghost predicate OldOrNew(states: seq<Durable>, document: Document, was: VaultEntries, now: VaultEntries, id: ProfileId,
                           secret: string, replaced: bool) {
    var reference := DeterministicReference(id);
    && (forall i :: 0 <= i < |states| ==>
          && states[i].document == document
          && (|| Held(states[i].vault, reference) == Held(was, reference)
              || Held(states[i].vault, reference) == Some(Vault.Ok(secret))))
    && Held(now, reference) == if replaced then Some(Vault.Ok(secret)) else Held(was, reference)
  }

  /** The same of the whole vault. */
  ghost predicate OldOrNewMap(states: seq<Durable>, was: VaultEntries, now: VaultEntries, id: ProfileId, secret: string,
                              replaced: bool) {
    var updated := was[DeterministicReference(id) := Vault.Ok(secret)];
    && (forall i :: 0 <= i < |states| ==> states[i].vault == was || states[i].vault == updated)
    && now == if replaced then updated else was
  }

  /** What follows for the durable states of a replacement. */
  lemma ReplaceStates(document: Document, before: Vault.Entries, faults: VaultRuns.Faults, clock: nat,
                      ids: set<ProfileId>, id: ProfileId, secret: string, t: VaultRuns.Trace<()>)
    requires id in ids && Links(document, id, DeterministicReference(id))
    requires Sound(document, VaultRuns.View(before, References(ids)), Apart(ids))
    requires t == VaultRuns.Replacing(before, faults, clock, DeterministicReference(id), secret)
    ensures VaultRuns.Ends(before, t)
    ensures Apart(ids) ==>
              forall i :: 0 <= i < |t.writes| ==> Consistent(document, VaultRuns.View(t.writes[i], References(ids)))
    ensures var states, was := Logged(document, t.writes, References(ids)), VaultRuns.View(before, References(ids));
            var now := VaultRuns.View(t.entries, References(ids));
            && (forall i :: 0 <= i < |states| ==> DiffersAt(states[i], document.profiles, was, Apart(ids), id))
            && OldOrNew(states, document, was, now, id, secret, t.result.Ok?)
            && (Apart(ids) ==> OldOrNewMap(states, was, now, id, secret, t.result.Ok?))
  {
    OwnReplace(before, faults, clock, ids, id, secret, t);
    if Apart(ids) {
      ReplaceStretch(document, before, faults, clock, ids, id, secret, t);
    }
  }

  /** What follows for the durable states of a save. */
  lemma SaveStates(document: Document, before: Vault.Entries, faults: VaultRuns.Faults, clock: nat,
                   ids: set<ProfileId>, id: ProfileId, secret: string, t: VaultRuns.Trace<string>)
    requires id in ids && Recorded(document, DeterministicReference(id))
    requires Sound(document, VaultRuns.View(before, References(ids)), Apart(ids))
    requires t == VaultRuns.Saving(before, faults, clock, DeterministicReference(id), secret)
    ensures VaultRuns.Ends(before, t)
    ensures Apart(ids) ==>
              forall i :: 0 <= i < |t.writes| ==> Consistent(document, VaultRuns.View(t.writes[i], References(ids)))
    ensures var states, was := Logged(document, t.writes, References(ids)), VaultRuns.View(before, References(ids));
            var now := VaultRuns.View(t.entries, References(ids));
            && (forall i :: 0 <= i < |states| ==> DiffersAt(states[i], document.profiles, was, Apart(ids), id))
            && (t.result.Ok? ==> Held(now, DeterministicReference(id)) == Some(Vault.Ok(secret)))
            && (t.result.Ok? && Apart(ids) ==> now == was[DeterministicReference(id) := Vault.Ok(secret)])
  {
    OwnSave(before, faults, clock, ids, id, secret, t);
    if Apart(ids) {
      SaveStretch(document, before, faults, clock, ids, id, secret, t);
    }
  }

  /** A consistent state over unchanged profiles still holds every linked entry. */
  lemma LinkedEntriesKept(log: seq<Durable>, from: nat, document: Document, vault: VaultEntries)
    requires forall i :: from <= i < |log| ==> Consistent(log[i].document, log[i].vault)
    requires AllRecovered(log, from, document.profiles, vault, true)
    ensures forall i, id, reference :: from <= i < |log| && Links(document, id, reference) ==>
              && log[i].document.profiles == document.profiles
              && reference in log[i].vault && reference in vault && log[i].vault[reference] == vault[reference]
  {
    forall i, id, reference | from <= i < |log| && Links(document, id, reference)
      ensures reference in log[i].vault && reference in vault && log[i].vault[reference] == vault[reference]
    {
      assert Links(log[i].document, id, reference);
    }
  }

  datatype Request =
    | UpsertRequest(id: ProfileId, profile: Profile)
    | DuplicateRequest(source: ProfileId, destination: ProfileId)
    | ActivateRequest(active: Option<ProfileId>)
    | SaveRequest(id: ProfileId, secret: string)
    | ReplaceRequest(id: ProfileId, secret: string)
    | DisconnectRequest(id: ProfileId)
    | DeleteRequest(id: ProfileId)
    | RecoverRequest
  {
    /** A caller brings no credential of its own, and a new profile has one of these identities. */
    ghost predicate NewIn(ids: set<ProfileId>) {
      && (UpsertRequest? ==> id in ids && profile.credential.None?)
      && (DuplicateRequest? ==> destination in ids)
    }

    /** The requests whose fault-free runs decide which identities may be used together. */
    predicate IsDeed() {
      SaveRequest? || ReplaceRequest?
    }

    function Deed(): (deed: ProfileApart.Deed)
      requires IsDeed()
    {
      if SaveRequest? then ProfileApart.Save(id, secret) else ProfileApart.Replace(id, secret)
    }
  }

  function Deeds(requests: seq<Request>): (deeds: seq<ProfileApart.Deed>)
    requires forall i :: 0 <= i < |requests| ==> requests[i].IsDeed()
    ensures |deeds| == |requests|
    ensures forall i :: 0 <= i < |requests| ==> deeds[i] == requests[i].Deed()
  {
    seq(|requests|, i requires 0 <= i < |requests| => requests[i].Deed())
  }

  /**
   A failed step leaves the durable state alone, so a crash is the schedule in which every later step fails.
   `ids` are the identities in use, `vault` is what the keyring holds for them, and `log` every durable state so
   far: one for each write of the document or of a keyring entry. What is said of the vault as a whole is said of
   identities that are apart; the rest holds of any.
   */
  class ProfileManager {
    var document: Document
    const keyring: OsKeyring.Keyring
    const keyringVault: OsKeyring.KeyringVault
    var clock: nat
    const faults: nat -> Fault
    ghost const ids: set<ProfileId>
    ghost var vault: VaultEntries
    ghost var log: seq<Durable>

    ghost predicate Valid()
      reads this, keyring
    {
      && keyringVault.keyring == keyring
      && Within(document, ids)
      && vault == VaultRuns.View(keyring.entries, References(ids))
      && |log| > 0 && log[|log| - 1] == Durable(document, vault)
      && forall i :: 0 <= i < |log| ==> Sound(log[i].document, log[i].vault, Apart(ids))
    }

    ghost function Now(): (s: ProfileApart.State)
      reads this, keyring
    {
      ProfileApart.State(document, keyring.entries, keyring.clock)
    }

    constructor (document: Document, keyring: OsKeyring.Keyring, faults: nat -> Fault, ghost ids: set<ProfileId>)
      requires Within(document, ids)
      requires Sound(document, VaultRuns.View(keyring.entries, References(ids)), Apart(ids))
      ensures Valid() && this.document == document && this.keyring == keyring && this.faults == faults && this.ids == ids
    {
      var keyringVault := new OsKeyring.KeyringVault(keyring);
      this.document := document;
      this.keyring := keyring;
      this.keyringVault := keyringVault;
      this.clock := 0;
      this.faults := faults;
      this.ids := ids;
      this.vault := VaultRuns.View(keyring.entries, References(ids));
      this.log := [Durable(document, VaultRuns.View(keyring.entries, References(ids)))];
    }

    /** No access to the document file and no keyring call fails. */
    ghost predicate Quiet() {
      (forall n: nat :: faults(n) == Fine) && VaultRuns.Quiet(keyring.faults)
    }

    /** Every durable state since: only this profile and its deterministic vault entry may differ. */
    twostate predicate OnlyTouches(id: ProfileId)
      reads this
    {
      && old(log) <= log
      && AllDiffer(log, |old(log)|, old(document).profiles, old(vault), Apart(ids), id)
    }

    method Tick() returns (fault: Fault)
      modifies this`clock
      ensures fault == faults(old(clock)) && clock == old(clock) + 1
    {
      fault := faults(clock);
      clock := clock + 1;
    }

    method ReadDocument() returns (r: Result<Document>)
      modifies this`clock
      ensures r == if faults(old(clock)) == Fine then Ok(document) else Err(Io)
    {
      var fault := Tick();
      r := if fault == Fine then Ok(document) else Err(Io);
    }

    method WriteDocument(next: Document) returns (r: Result<()>)
      requires Valid() && Sound(next, vault, Apart(ids)) && Within(next, ids)
      modifies this`clock, this`document, this`log
      ensures Valid()
      ensures r == if faults(old(clock)) == Fine then Ok(()) else Err(Io)
      ensures document == if r.Ok? then next else old(document)
      ensures log == if r.Ok? then old(log) + [Durable(document, vault)] else old(log)
    {
      var fault := Tick();
      if fault != Fine {
        return Err(Io);
      }
      document := next;
      log := log + [Durable(document, vault)];
      r := Ok(());
    }

    /** Records the durable states of a vault call that has just been made. */
    ghost method Follow<T>(t: VaultRuns.Trace<T>, before: Vault.Entries)
      requires keyringVault.keyring == keyring && Within(document, ids)
      requires VaultRuns.Ends(before, t) && keyring.entries == t.entries
      requires vault == VaultRuns.View(before, References(ids))
      requires |log| > 0 && log[|log| - 1] == Durable(document, vault)
      requires forall i :: 0 <= i < |log| ==> Sound(log[i].document, log[i].vault, Apart(ids))
      requires Apart(ids) ==>
                 forall i :: 0 <= i < |t.writes| ==> Consistent(document, VaultRuns.View(t.writes[i], References(ids)))
      modifies this`vault, this`log
      ensures Valid() && log == old(log) + Logged(document, t.writes, References(ids))
    {
      log := log + Logged(document, t.writes, References(ids));
      vault := VaultRuns.View(keyring.entries, References(ids));
    }

    method VaultSave(id: ProfileId, secret: string) returns (r: Result<()>)
      requires Valid() && id in ids && Recorded(document, DeterministicReference(id))
      modifies this`vault, this`log, keyring
      ensures Valid() && OnlyTouches(id)
      ensures r.Ok? ==> Held(vault, DeterministicReference(id)) == Some(Vault.Ok(secret))
      ensures r.Ok? && Apart(ids) ==> vault == old(vault)[DeterministicReference(id) := Vault.Ok(secret)]
      ensures r.Ok? || r.error == VaultFailure
      ensures Vault.ValidSecret(secret) && Quiet() ==> r.Ok?
      ensures var t := VaultRuns.Saving(old(keyring.entries), keyring.faults, old(keyring.clock),
                                        DeterministicReference(id), secret);
              keyring.entries == t.entries && keyring.clock == t.clock && r.Ok? == t.result.Ok?
    {
      ghost var before := keyring.entries;
      ghost var t := VaultRuns.Saving(before, keyring.faults, keyring.clock, DeterministicReference(id), secret);
      SaveStates(document, before, keyring.faults, keyring.clock, ids, id, secret, t);
      if Quiet() {
        OwnSave(before, keyring.faults, keyring.clock, ids, id, secret, t);
      }
      var saved := keyringVault.Save(DeterministicReference(id), secret);
      Follow(t, before);
      r := if saved.Ok? then Ok(()) else Err(VaultFailure);
    }

    method VaultDelete(id: ProfileId) returns (r: Result<()>)
      requires Valid() && id in ids && Recorded(document, DeterministicReference(id))
      modifies this`vault, this`log, keyring
      ensures Valid() && OnlyTouches(id)
      ensures old(log) <= log
      ensures forall i :: |old(log)| <= i < |log| ==>
                log[i].document == document && DeterministicReference(id) !in log[i].vault
      ensures if r.Ok? then DeterministicReference(id) !in vault else vault == old(vault) && log == old(log)
      ensures Apart(ids) ==> forall i :: |old(log)| <= i < |log| ==>
                log[i].vault == old(vault) || log[i].vault == old(vault) - {DeterministicReference(id)}
      ensures r.Ok? && Apart(ids) ==> vault == old(vault) - {DeterministicReference(id)}
      ensures Quiet() ==> r.Ok?
    {
      ghost var before := keyring.entries;
      ghost var t := VaultRuns.Deleting(before, keyring.faults, keyring.clock, DeterministicReference(id));
      OwnDelete(before, keyring.faults, keyring.clock, ids, id, t);
      if Apart(ids) {
        DeleteStretch(document, before, keyring.faults, keyring.clock, ids, id, t);
      }
      var deleted := keyringVault.Delete(DeterministicReference(id));
      Follow(t, before);
      r := if deleted.Ok? then Ok(()) else Err(VaultFailure);
    }

    /** Inserts or edits one profile; refuses to break the invariant only through its caller's promise. */
    method Upsert(id: ProfileId, profile: Profile) returns (r: Result<()>)
      requires Valid() && id in ids
      requires profile.credential.None? || (id in document.profiles && document.profiles[id].credential.Some?)
      modifies this
      ensures Valid() && OnlyTouches(id) && vault == old(vault)
      ensures r.Ok? ==> UpsertDocument(old(document), id, profile) == Ok(document)
      ensures r.Ok? ==>
                && id in document.profiles
                && document.profiles[id].kind == profile.kind && document.profiles[id].fields == profile.fields
      ensures r.Err? ==> document == old(document)
      ensures document.active == old(document).active && old(document).profiles.Keys <= document.profiles.Keys
      ensures id in old(document).profiles && id in document.profiles ==>
                document.profiles[id].credential == old(document).profiles[id].credential
    {
      var next := UpsertDocument(document, id, profile);
      if next.Err? {
        return Err(next.error);
      }
      UpsertStores(document, id, profile);
      SoundUpsert(document, vault, Apart(ids), id, profile);
      r := WriteDocument(next.value);
    }

    /** Copies non-secret settings to a new profile, which never shares the source's link. */
    method Duplicate(source: ProfileId, destination: ProfileId) returns (r: Result<()>)
      requires Valid() && destination in ids
      modifies this
      ensures Valid() && OnlyTouches(destination) && vault == old(vault)
      ensures document.active == old(document).active && old(document).profiles.Keys <= document.profiles.Keys
      ensures r.Err? ==> document == old(document)
      ensures r.Ok? ==>
                && source in old(document).profiles
                && destination in document.profiles
                && document.profiles[destination].fields == old(document).profiles[source].fields
                && document.profiles[destination].kind == old(document).profiles[source].kind
                && (destination !in old(document).profiles ==> document.profiles[destination].credential.None?)
    {
      var found := ReadDocument();
      if found.Ok? && destination in document.profiles {
        return Err(Conflict);
      }
      var read := ReadDocument();
      if read.Err? {
        return Err(read.error);
      }
      if source !in document.profiles {
        return Err(UnknownProfile);
      }
      r := Upsert(destination, document.profiles[source].(credential := None));
    }

    method Activate(profile: Option<ProfileId>) returns (r: Result<()>)
      requires Valid()
      modifies this
      ensures Valid() && vault == old(vault) && old(log) <= log
      ensures r.Err? ==> document == old(document)
      ensures r.Ok? ==> document == old(document).(active := profile)
                        && (profile.Some? ==> profile.value in document.profiles)
    {
      if profile.Some? && profile.value !in document.profiles {
        return Err(UnknownProfile);
      }
      var next := document.(active := profile);
      SoundActive(document, vault, Apart(ids), profile);
      r := WriteDocument(next);
    }

    method BeginSave(id: ProfileId) returns (r: Result<Record>)
      requires Valid()
      requires id in document.profiles ==> document.profiles[id].credential.None?
      modifies this`clock, this`document, this`log
      ensures Valid() && OnlyTouches(id) && document.profiles == old(document).profiles
      ensures r.Err? ==> document == old(document) && log == old(log)
      ensures r.Ok? ==>
                && id in document.profiles
                && r.value == Record(id, DeterministicReference(id), UncommittedSave)
                && document == BeginSaveDocument(old(document), id)
                && log == old(log) + [Durable(document, vault)]
                && r.value in document.recovery && Recorded(document, r.value.reference)
      ensures id in document.profiles && Quiet() ==> r.Ok?
    {
      var read := ReadDocument();
      if read.Err? {
        return Err(read.error);
      }
      if id !in document.profiles {
        return Err(UnknownProfile);
      }
      SoundBeginSave(document, vault, Apart(ids), id);
      var begun := WriteDocument(BeginSaveDocument(document, id));
      if begun.Err? {
        return Err(begun.error);
      }
      var record := Record(id, DeterministicReference(id), UncommittedSave);
      assert record in document.recovery;
      r := Ok(record);
    }

    method CommitSave(record: Record) returns (r: Result<()>)
      requires Valid() && record in document.recovery && record.profile in document.profiles && record.reference in vault
      modifies this`clock, this`document, this`log
      ensures Valid()
      ensures r.Err? ==> document == old(document) && log == old(log)
      ensures r.Ok? ==>
                && document == CommitSaveDocument(old(document), record)
                && log == old(log) + [Durable(document, vault)]
                && !Recorded(document, record.reference)
      ensures Quiet() ==> r.Ok?
    {
      SoundCommitSave(document, vault, Apart(ids), record);
      r := WriteDocument(CommitSaveDocument(document, record));
    }

    /** The vault write and the commit that follow the first durable record. */
    method FinishSave(record: Record, secret: string) returns (r: Result<string>)
      requires Valid() && record in document.recovery && record.profile in document.profiles
      requires record.reference == DeterministicReference(record.profile)
      modifies this, keyring
      ensures Valid() && OnlyTouches(record.profile)
      ensures r.Err? ==> document == old(document)
      ensures r.Ok? ==>
                && r.value == record.reference
                && document == CommitSaveDocument(old(document), record)
                && Held(vault, r.value) == Some(Vault.Ok(secret))
                && !Recorded(document, record.reference)
      ensures r.Ok? && Apart(ids) ==> vault == old(vault)[record.reference := Vault.Ok(secret)]
      ensures Vault.ValidSecret(secret) && Quiet() ==> r.Ok?
      ensures var t := VaultRuns.Saving(old(keyring.entries), keyring.faults, old(keyring.clock), record.reference, secret);
              && keyring.entries == t.entries && keyring.clock == t.clock
              && (Quiet() ==> document == if t.result.Ok? then CommitSaveDocument(old(document), record) else old(document))
    {
      assert Recorded(document, record.reference);
      UpdateThenRemove(document.profiles, record.profile,
                       document.profiles[record.profile].(credential := Some(record.reference)));
      var saved := VaultSave(record.profile, secret);
      if saved.Err? {
        return Err(saved.error);
      }
      var committed := CommitSave(record);
      if committed.Err? {
        return Err(RecoveryPending);
      }
      r := Ok(record.reference);
    }

    /** The three durable steps of a first save. */
    method SaveUnlinked(id: ProfileId, secret: string) returns (r: Result<string>)
      requires Valid() && id in document.profiles && document.profiles[id].credential.None?
      modifies this, keyring
      ensures Valid() && OnlyTouches(id)
      ensures r.Err? ==> document.profiles == old(document).profiles
      ensures document.active == old(document).active
      ensures r.Ok? ==>
                && r.value == DeterministicReference(id)
                && document.profiles == old(document).profiles[id := old(document).profiles[id].(credential := Some(r.value))]
                && Held(vault, r.value) == Some(Vault.Ok(secret))
                && !Recorded(document, r.value)
      ensures r.Ok? && Apart(ids) ==> vault == old(vault)[r.value := Vault.Ok(secret)]
      ensures Vault.ValidSecret(secret) && Quiet() ==> r.Ok?
      ensures Quiet() ==> Now() == ProfileApart.Saved(old(Now()), keyring.faults, id, secret)
    {
      var record := BeginSave(id);
      if record.Err? {
        return Err(record.error);
      }
      ghost var begun := log;
      r := FinishSave(record.value, secret);
      assert log[..|begun|] == begun;
      DifferOn(log, |old(log)|, |begun|, old(document).profiles, old(vault), Apart(ids), id);
    }

    /**
     First save of a credential in three durable steps. Success links the deterministic reference to
     exactly this secret; any failure leaves every profile as it was; with no fault it succeeds.
     */
    method SaveCredential(id: ProfileId, secret: string) returns (r: Result<string>)
      requires Valid()
      modifies this, keyring
      ensures Valid() && OnlyTouches(id)
      ensures r.Err? ==> document.profiles == old(document).profiles
      ensures document.active == old(document).active
      ensures r.Ok? ==>
                && r.value == DeterministicReference(id)
                && id in old(document).profiles && old(document).profiles[id].credential.None?
                && document.profiles == old(document).profiles[id := old(document).profiles[id].(credential := Some(r.value))]
                && Held(vault, r.value) == Some(Vault.Ok(secret))
                && !Recorded(document, r.value)
      ensures r.Ok? && Apart(ids) ==> vault == old(vault)[r.value := Vault.Ok(secret)]
      ensures Quiet() ==> Now() == ProfileApart.Done(old(Now()), keyring.faults, ProfileApart.Save(id, secret))
      ensures (&& id in old(document).profiles && old(document).profiles[id].credential.None?
               && Vault.ValidSecret(secret) && Quiet()) ==> r.Ok?
    {
      var read := ReadDocument();
      if read.Err? {
        return Err(read.error);
      }
      if id !in document.profiles {
        return Err(UnknownProfile);
      }
      if document.profiles[id].credential.Some? {
        return Err(Conflict);
      }
      r := SaveUnlinked(id, secret);
    }

    method VaultReplace(id: ProfileId, secret: string) returns (r: Result<()>)
      requires Valid() && Links(document, id, DeterministicReference(id))
      modifies this`vault, this`log, keyring
      ensures Valid() && OnlyTouches(id)
      ensures OldOrNew(log[|old(log)|..], document, old(vault), vault, id, secret, r.Ok?)
      ensures Apart(ids) ==> OldOrNewMap(log[|old(log)|..], old(vault), vault, id, secret, r.Ok?)
      ensures r.Ok? || r.error == VaultFailure
      ensures (&& DeterministicReference(id) in old(vault) && old(vault)[DeterministicReference(id)].Ok?
               && Vault.ValidSecret(secret) && Quiet()) ==> r.Ok?
      ensures var t := VaultRuns.Replacing(old(keyring.entries), keyring.faults, old(keyring.clock),
                                           DeterministicReference(id), secret);
              keyring.entries == t.entries && keyring.clock == t.clock
    {
      ghost var before := keyring.entries;
      ghost var t := VaultRuns.Replacing(before, keyring.faults, keyring.clock, DeterministicReference(id), secret);
      ReplaceStates(document, before, keyring.faults, keyring.clock, ids, id, secret, t);
      if Quiet() {
        VaultRuns.QuietSucceeds(before, keyring.faults, keyring.clock, DeterministicReference(id), secret);
      }
      var replaced := keyringVault.Replace(DeterministicReference(id), secret);
      Follow(t, before);
      assert log[|old(log)|..] == Logged(document, t.writes, References(ids));
      r := if replaced.Ok? then Ok(()) else Err(VaultFailure);
    }

    /** Replaces the linked secret and nothing else: every state on the way has the old one or the new one. */
    method ReplaceCredential(id: ProfileId, secret: string) returns (r: Result<()>)
      requires Valid()
      modifies this, keyring
      ensures Valid() && OnlyTouches(id) && document == old(document)
      ensures OldOrNew(log[|old(log)|..], document, old(vault), vault, id, secret, r.Ok?)
      ensures Apart(ids) ==> OldOrNewMap(log[|old(log)|..], old(vault), vault, id, secret, r.Ok?)
      ensures r.Ok? ==> Links(document, id, DeterministicReference(id))
      ensures Quiet() ==> Now() == ProfileApart.Done(old(Now()), keyring.faults, ProfileApart.Replace(id, secret))
      ensures (&& Links(document, id, DeterministicReference(id)) && DeterministicReference(id) in old(vault)
               && old(vault)[DeterministicReference(id)].Ok? && Vault.ValidSecret(secret) && Quiet()) ==> r.Ok?
    {
      var read := ReadDocument();
      if read.Err? {
        return Err(read.error);
      }
      if id !in document.profiles {
        return Err(UnknownProfile);
      }
      if document.profiles[id].credential.None? {
        return Err(CredentialNotStored);
      }
      assert Links(document, id, document.profiles[id].credential.value);
      r := VaultReplace(id, secret);
    }

    /** Settles one record: the vault entry goes first unless the profile links it, then the record. */
    method FinishRecord(record: Record, linked: bool) returns (r: Result<()>)
      requires Valid() && record in document.recovery
      requires linked ==> Links(document, record.profile, record.reference)
      modifies this, keyring
      ensures Valid() && document.profiles == old(document).profiles && OnlyTouches(record.profile)
      ensures r.Ok? ==> document == RemoveRecovery(old(document), record) && record.reference !in vault
      ensures r.Err? ==> document == old(document) && r.error == RecoveryPending
      ensures old(log) <= log
      ensures forall i :: |old(log)| <= i < |log| ==> log[i].document.profiles == old(document).profiles
      ensures Apart(ids) ==>
                && (vault == old(vault) || vault == old(vault) - {record.reference})
                && forall i :: |old(log)| <= i < |log| ==>
                     log[i].vault == old(vault) || log[i].vault == old(vault) - {record.reference}
      ensures Quiet() ==> r.Ok?
    {
      assert Recorded(document, record.reference);
      UpdateThenRemove(vault, record.reference, Vault.Ok(""));
      if !linked {
        var deleted := VaultDelete(record.profile);
        if deleted.Err? {
          return Err(RecoveryPending);
        }
      }
      SoundRemove(document, vault, Apart(ids), record);
      var finished := WriteDocument(RemoveRecovery(document, record));
      if finished.Err? {
        return Err(RecoveryPending);
      }
      r := Ok(());
    }

    method BeginDisconnect(id: ProfileId) returns (r: Result<Option<Record>>)
      requires Valid()
      modifies this`clock, this`document, this`log
      ensures Valid() && OnlyTouches(id)
      ensures r.Err? ==> document == old(document) && r.error != RecoveryPending
      ensures r.Ok? ==> id in old(document).profiles
      ensures r == Ok(None) ==> document == old(document) && document.profiles[id].credential.None?
      ensures r.Ok? && r.value.Some? ==>
                && r.value.value == Record(id, DeterministicReference(id), Delete)
                && document == BeginDisconnectDocument(old(document), id, DeterministicReference(id))
                && r.value.value in document.recovery
    {
      var read := ReadDocument();
      if read.Err? {
        return Err(read.error);
      }
      if id !in document.profiles {
        return Err(UnknownProfile);
      }
      if document.profiles[id].credential.None? {
        return Ok(None);
      }
      var reference := document.profiles[id].credential.value;
      assert reference == DeterministicReference(id) by {
        assert Links(document, id, reference);
      }
      SoundBeginDisconnect(document, vault, Apart(ids), id, reference);
      UpdateThenRemove(document.profiles, id, document.profiles[id].(credential := None));
      var begun := WriteDocument(BeginDisconnectDocument(document, id, reference));
      if begun.Err? {
        return Err(begun.error);
      }
      r := Ok(Some(Record(id, reference, Delete)));
    }

    /** Unlinks first, then deletes the vault entry; a pending record is what a failure leaves behind. */
    method Disconnect(id: ProfileId) returns (r: Result<()>)
      requires Valid()
      modifies this, keyring
      ensures Valid() && OnlyTouches(id)
      ensures r.Ok? ==> id in old(document).profiles && id in document.profiles && document.profiles[id].credential.None?
                        && (old(document).profiles[id].credential.Some? ==> DeterministicReference(id) !in vault)
      ensures r == Err(RecoveryPending) ==> id in document.profiles && document.profiles[id].credential.None?
                                            && Recorded(document, DeterministicReference(id))
      ensures r.Err? && r.error != RecoveryPending ==> document == old(document) && vault == old(vault)
      ensures document.active == old(document).active && document.profiles.Keys == old(document).profiles.Keys
    {
      var begun := BeginDisconnect(id);
      if begun.Err? {
        return Err(begun.error);
      }
      if begun.value.None? {
        return Ok(());
      }
      assert document.profiles - {id} == old(document).profiles - {id};
      r := FinishRecord(begun.value.value, false);
      assert r.Err? ==> begun.value.value in document.recovery;
    }

    method BeginDelete(id: ProfileId) returns (r: Result<Record>)
      requires Valid()
      modifies this`clock, this`document, this`log
      ensures Valid() && OnlyTouches(id)
      ensures r.Err? ==> document == old(document) && r.error != RecoveryPending
      ensures r.Ok? ==>
                && id in old(document).profiles
                && r.value == Record(id, DeterministicReference(id), Delete)
                && document == BeginDeleteDocument(old(document), id)
                && r.value in document.recovery
    {
      var read := ReadDocument();
      if read.Err? {
        return Err(read.error);
      }
      if id !in document.profiles {
        return Err(UnknownProfile);
      }
      SoundBeginDelete(document, vault, Apart(ids), id);
      var begun := WriteDocument(BeginDeleteDocument(document, id));
      if begun.Err? {
        return Err(begun.error);
      }
      r := Ok(Record(id, DeterministicReference(id), Delete));
    }

    /** Deletes a profile and schedules cleanup of its deterministic vault entry. */
    method DeleteProfile(id: ProfileId) returns (r: Result<()>)
      requires Valid()
      modifies this, keyring
      ensures Valid() && OnlyTouches(id)
      ensures r.Ok? ==> id in old(document).profiles && document.profiles == old(document).profiles - {id}
                        && DeterministicReference(id) !in vault
      ensures r == Err(RecoveryPending) ==> document.profiles == old(document).profiles - {id}
                                            && Recorded(document, DeterministicReference(id))
      ensures r.Err? && r.error != RecoveryPending ==> document == old(document) && vault == old(vault)
      ensures r.Ok? || r.error == RecoveryPending ==>
                document.active == if old(document).active == Some(id) then None else old(document).active
    {
      var record := BeginDelete(id);
      if record.Err? {
        return Err(record.error);
      }
      UpdateThenRemove(document.profiles, id, Profile(Gemini, "", None));
      assert document.profiles - {id} == old(document).profiles - {id};
      r := FinishRecord(record.value, false);
      assert r.Err? ==> record.value in document.recovery;
    }

    /** One round of the recovery loop; only the read that looks for a link can stop the loop. */
    method Reconcile(record: Record) returns (r: Result<bool>)
      requires Valid() && record in document.recovery
      modifies this, keyring
      ensures Valid() && document.profiles == old(document).profiles
      ensures document == if r == Ok(true) then RemoveRecovery(old(document), record) else old(document)
      ensures (Apart(ids) ==> Submap(vault, old(vault))) && old(log) <= log
      ensures AllRecovered(log, |old(log)|, old(document).profiles, old(vault), Apart(ids))
      ensures Quiet() ==> r == Ok(true)
    {
      var linked := false;
      if record.kind == UncommittedSave {
        var current := ReadDocument();
        if current.Err? {
          return Err(current.error);
        }
        linked := Links(document, record.profile, record.reference);
      }
      var result := FinishRecord(record, linked);
      FinishedIsRecovered(log, |old(log)|, document.profiles, old(vault), record.reference, Apart(ids));
      r := Ok(result.Ok?);
    }

    /** The recovery loop over the records as they were read. */
    method ReconcileAll(records: seq<Record>) returns (r: Result<nat>)
      requires Valid() && records == document.recovery
      modifies this, keyring
      ensures Valid() && document.profiles == old(document).profiles && old(log) <= log
      ensures document.active == old(document).active
      ensures AllRecovered(log, |old(log)|, old(document).profiles, old(vault), Apart(ids))
      ensures r.Ok? ==> r.value == |document.recovery|
      ensures Quiet() ==> r == Ok(0)
    {
      var remaining := 0;
      for index := 0 to |records|
        invariant Valid() && document.profiles == old(document).profiles && document.active == old(document).active
        invariant Unique(document.recovery)
        invariant forall j :: index <= j < |records| ==> records[j] in document.recovery
        invariant |document.recovery| == |records| - index + remaining
        invariant (Apart(ids) ==> Submap(vault, old(vault))) && old(log) <= log
        invariant AllRecovered(log, |old(log)|, old(document).profiles, old(vault), Apart(ids))
        invariant Quiet() ==> remaining == 0
      {
        ghost var sofar, left := log, vault;
        var settled := Reconcile(records[index]);
        assert log[..|sofar|] == sofar;
        RecoveredOn(log, |old(log)|, |sofar|, old(document).profiles, old(vault), left, Apart(ids));
        if settled.Err? {
          return Err(settled.error);
        }
        if !settled.value {
          remaining := remaining + 1;
        }
      }
      r := Ok(remaining);
    }

    /**
     Reconciles every record. Linked entries keep their secrets at every step, the count returned is the
     number of records left, and zero means the vault holds exactly the linked references.
     */
    method RecoverPending() returns (r: Result<nat>)
      requires Valid()
      modifies this, keyring
      ensures Valid() && document.profiles == old(document).profiles && document.active == old(document).active
      ensures old(log) <= log
      ensures Apart(ids) ==> forall i, id, reference :: |old(log)| <= i < |log| && Links(old(document), id, reference) ==>
                && log[i].document.profiles == old(document).profiles
                && reference in log[i].vault && log[i].vault[reference] == old(vault)[reference]
      ensures r.Ok? ==> r.value == |document.recovery|
      ensures r == Ok(0) && Apart(ids) ==> forall reference :: reference in vault <==> Linked(document, reference)
      ensures Quiet() ==> r == Ok(0)
    {
      var read := ReadDocument();
      if read.Err? {
        return Err(read.error);
      }
      ghost var entries, from := vault, |log|;
      r := ReconcileAll(document.recovery);
      if Apart(ids) {
        LinkedEntriesKept(log, from, old(document), entries);
        if r == Ok(0) {
          NoRecordsMeansExact(document, vault);
        }
      }
    }

    /** One request of a run. */
    method Serve(request: Request)
      requires Valid() && request.NewIn(ids)
      modifies this, keyring
      ensures Valid() && old(log) <= log
      ensures old(ActiveKnown(document)) ==> ActiveKnown(document)
      ensures Quiet() && request.IsDeed() ==> Now() == ProfileApart.Done(old(Now()), keyring.faults, request.Deed())
    {
      match request {
        case UpsertRequest(id, profile) => var _ := Upsert(id, profile);
        case DuplicateRequest(source, destination) => var _ := Duplicate(source, destination);
        case ActivateRequest(active) => var _ := Activate(active);
        case SaveRequest(id, secret) => var _ := SaveCredential(id, secret);
        case ReplaceRequest(id, secret) => var _ := ReplaceCredential(id, secret);
        case DisconnectRequest(id) => var _ := Disconnect(id);
        case DeleteRequest(id) => var _ := DeleteProfile(id);
        case RecoverRequest => var _ := RecoverPending();
      }
    }

    /**
     Any run of requests, each under any faults: every durable state ever written has an orderly document, and is
     consistent when no two identities have colliding keys. Fault-free runs of saves and replacements are the ones
     whose invariant decides which identities those are.
     */
    method Run(requests: seq<Request>)
      requires Valid()
      requires forall i :: 0 <= i < |requests| ==> requests[i].NewIn(ids)
      modifies this, keyring
      ensures Valid() && old(log) <= log
      ensures old(ActiveKnown(document)) ==> ActiveKnown(document)
      ensures Quiet() && (forall i :: 0 <= i < |requests| ==> requests[i].IsDeed()) ==>
                Now() == ProfileApart.AllDone(old(Now()), keyring.faults, Deeds(requests))
    {
      ghost var deeds := forall i :: 0 <= i < |requests| ==> requests[i].IsDeed();
      for i := 0 to |requests|
        invariant Valid() && old(log) <= log
        invariant old(ActiveKnown(document)) ==> ActiveKnown(document)
        invariant Quiet() && deeds ==> Now() == ProfileApart.AllDone(old(Now()), keyring.faults, Deeds(requests)[..i])
      {
        Serve(requests[i]);
        assert deeds ==> Deeds(requests)[..i + 1][..i] == Deeds(requests)[..i];
      }
      assert deeds ==> Deeds(requests)[..|requests|] == Deeds(requests);
    }
  }
}

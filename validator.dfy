// lib/contribution/validator.ts: `validateContribution` asks the store for
// conflicts and fails open, reporting no conflict when the store throws.
module Validator {
  import opened Text
  import opened Store

  const NO_CONFLICTS := Conflicts(false, false, false)

  /** The store's answer, or no conflict at all when the store throws. */
  function Validate(st: StoreState, filename: string, lineNumber: Option<int>, codeHash: string, username: string): (r: Conflicts)
  {
    match CheckConflicts(st, filename, lineNumber, codeHash, username)
    case Err => NO_CONFLICTS
    case Ok(c) => c
  }

  method ValidateContribution(store: ContributionStore, filename: string, lineNumber: Option<int>, codeHash: string, username: string)
    returns (r: Conflicts)
    ensures r == Validate(store.State(), filename, lineNumber, codeHash, username)
  {
    var checked := store.CheckContributionConflicts(filename, lineNumber, codeHash, username);
    if checked.Err? {
      return Conflicts(false, false, false);
    }
    return checked.value;
  }

  // ---------------------------------------------------------------------

  /**
   * What each flag means: with a working store, the caller already has a
   * record with this key; an accepted record has this key; another user has
   * a pending record on this file and (non-null) line. A failing store
   * reports nothing, so it never blocks a submission.
   */
  lemma ValidateMeaning(st: StoreState, filename: string, lineNumber: Option<int>, codeHash: string, username: string)
    ensures var r := Validate(st, filename, lineNumber, codeHash, username);
      && (r.personalDuplicate <==> (ConflictsOp !in st.failing &&
            exists id :: id in st.contribs && st.contribs[id].username == username && Key(st.contribs[id]) == codeHash))
      && (r.acceptedDuplicate <==> (ConflictsOp !in st.failing &&
            exists id :: id in st.contribs && st.contribs[id].status == ACCEPTED && Key(st.contribs[id]) == codeHash))
      && (r.lineConflict <==> ConflictsOp !in st.failing && lineNumber.Some? && LineTaken(st, filename, lineNumber, username))
  {
  }

  /** A record of the caller with the same key is always reported, unless the store fails. */
  lemma SeesOwnRecord(st: StoreState, filename: string, lineNumber: Option<int>, codeHash: string, username: string, id: nat)
    requires ConflictsOp !in st.failing
    requires id in st.contribs && st.contribs[id].username == username && Key(st.contribs[id]) == codeHash
    ensures Validate(st, filename, lineNumber, codeHash, username).personalDuplicate
  {
  }

  /** Without a line number there is never a line conflict. */
  lemma NoLineNoConflict(st: StoreState, filename: string, codeHash: string, username: string)
    ensures !Validate(st, filename, None, codeHash, username).lineConflict
  {
  }
}

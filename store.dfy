// The contribution store the command handlers call through `db`. The
// handlers use operations the repository's database interface does not
// declare (`updateContribution`, `deleteContribution`,
// `getUserContributions`, `getFileContributions`,
// `checkContributionConflicts`, `getSettings`); here they are the
// operations of an abstract store. Any operation kind listed in `failing`
// throws (the `Err` result).
module Store {
  import opened Text
  import Formatter

  /** A stored contribution; `lineNumber` is the nullable `line_number` column. */
  datatype Contribution = Contribution(
    id: nat, username: string, filename: string, lineNumber: Option<int>, code: string, status: string)

  /** The settings record; `useHuhMode` is true only when the stored value is exactly `true`. */
  datatype Settings = Settings(useHuhMode: bool)

  datatype Conflicts = Conflicts(personalDuplicate: bool, acceptedDuplicate: bool, lineConflict: bool)

  datatype StoreOp = GetOp | UpdateOp | DeleteOp | CreateOp | ConflictsOp | SettingsOp | UserListOp | FileListOp

  datatype StoreState = StoreState(
    contribs: map<nat, Contribution>, nextId: nat, settings: Option<Settings>, failing: set<StoreOp>)

  const PENDING := "pending"
  const ACCEPTED := "accepted"

  /** Every record sits under its own id, below the next id to hand out. */
  predicate ValidState(st: StoreState) {
    forall id :: id in st.contribs ==> id < st.nextId && st.contribs[id].id == id
  }

  // ---------------------------------------------------------------------
  // Operations, as functions of the store's state

  /** `getContribution(id)`: the record, or none. */
  function Get(st: StoreState, id: int): Result<Option<Contribution>> {
    if GetOp in st.failing then Err
    else if id >= 0 && id as nat in st.contribs then Ok(Some(st.contribs[id as nat]))
    else Ok(None)
  }

  /** `updateContribution(id, { code })`: only the code of that record changes. */
  function UpdateCode(st: StoreState, id: nat, code: string): Result<StoreState> {
    if UpdateOp in st.failing then Err
    else if id in st.contribs then Ok(st.(contribs := st.contribs[id := st.contribs[id].(code := code)]))
    else Ok(st)
  }

  /** `deleteContribution(id)`. */
  function Delete(st: StoreState, id: nat): Result<StoreState> {
    if DeleteOp in st.failing then Err
    else Ok(st.(contribs := st.contribs - {id}))
  }

  /** `createContribution(...)`: a pending record under the next id; the id is returned. */
  function Create(st: StoreState, username: string, filename: string, lineNumber: Option<int>, code: string): Result<(StoreState, nat)> {
    if CreateOp in st.failing then Err
    else
      var id := st.nextId;
      Ok((st.(contribs := st.contribs[id := Contribution(id, username, filename, lineNumber, code, PENDING)], nextId := id + 1), id))
  }

  /** The comparison key of a stored record: its code's normalized key followed by its filename. */
  function Key(c: Contribution): string {
    Formatter.NormalizeKey(c.code) + c.filename
  }

  /**
   * `checkContributionConflicts(filename, lineNumber, codeHash, username)`:
   * a record of the same user with the same key; an accepted record with the
   * same key; a pending record of another user on the same file and line.
   */
  function CheckConflicts(st: StoreState, filename: string, lineNumber: Option<int>, codeHash: string, username: string): Result<Conflicts> {
    if ConflictsOp in st.failing then Err
    else Ok(Conflicts(
      exists id :: id in st.contribs && st.contribs[id].username == username && Key(st.contribs[id]) == codeHash,
      exists id :: id in st.contribs && st.contribs[id].status == ACCEPTED && Key(st.contribs[id]) == codeHash,
      lineNumber.Some? && LineTaken(st, filename, lineNumber, username)))
  }

  /** Another user has a pending record on that file and line. */
  predicate LineTaken(st: StoreState, filename: string, lineNumber: Option<int>, username: string) {
    exists id :: id in st.contribs && st.contribs[id].username != username &&
      st.contribs[id].filename == filename && st.contribs[id].lineNumber == lineNumber && st.contribs[id].status == PENDING
  }

  /** `getSettings()`: the settings record, or none. */
  function GetSettings(st: StoreState): Result<Option<Settings>> {
    if SettingsOp in st.failing then Err else Ok(st.settings)
  }

  /** The records with id below `below` that satisfy `P`, newest (largest id) first. */
  function Matching(contribs: map<nat, Contribution>, P: Contribution -> bool, below: nat): (r: seq<Contribution>)
    ensures forall i :: 0 <= i < |r| ==> P(r[i]) && r[i].id in contribs && contribs[r[i].id] == r[i] && r[i].id < below
    ensures forall i, j :: 0 <= i < j < |r| ==> r[i].id > r[j].id
    requires forall id :: id in contribs ==> contribs[id].id == id
    decreases below
  {
    if below == 0 then []
    else
      var id := below - 1;
      var rest := Matching(contribs, P, id);
      if id in contribs && P(contribs[id]) then [contribs[id]] + rest else rest
  }

  function ByUser(username: string): Contribution -> bool {
    (c: Contribution) => c.username == username
  }

  function ByFile(filename: string): Contribution -> bool {
    (c: Contribution) => c.filename == filename
  }

  function Take<T>(xs: seq<T>, n: nat): (r: seq<T>)
    ensures |r| <= n && |r| <= |xs|
    ensures r == xs[..|r|]
    ensures |r| == if |xs| < n then |xs| else n
  {
    if |xs| <= n then xs else xs[..n]
  }

  /** `getUserContributions(username, limit)`: the user's newest records, at most `limit` of them. */
  function UserContributions(st: StoreState, username: string, limit: nat): Result<seq<Contribution>>
    requires ValidState(st)
  {
    if UserListOp in st.failing then Err
    else Ok(Take(Matching(st.contribs, ByUser(username), st.nextId), limit))
  }

  /** `getFileContributions(filename, limit)`: the file's newest records, at most `limit` of them. */
  function FileContributions(st: StoreState, filename: string, limit: nat): Result<seq<Contribution>>
    requires ValidState(st)
  {
    if FileListOp in st.failing then Err
    else Ok(Take(Matching(st.contribs, ByFile(filename), st.nextId), limit))
  }

  // ---------------------------------------------------------------------
  // The store object

  class ContributionStore {
    var contribs: map<nat, Contribution>
    var nextId: nat
    var settings: Option<Settings>
    var failing: set<StoreOp>

    function State(): StoreState
      reads this
    {
      StoreState(contribs, nextId, settings, failing)
    }

    predicate Valid()
      reads this
    {
      ValidState(State())
    }

    constructor(settings: Option<Settings>, failing: set<StoreOp>)
      ensures State() == StoreState(map[], 1, settings, failing)
      ensures Valid()
    {
      contribs := map[];
      nextId := 1;
      this.settings := settings;
      this.failing := failing;
    }

    method GetContribution(id: int) returns (r: Result<Option<Contribution>>)
      ensures r == Get(State(), id)
      ensures r.Ok? && r.value.Some? ==> id >= 0 && id as nat in contribs && r.value.value == contribs[id as nat]
    {
      if GetOp in failing {
        return Err;
      }
      if id >= 0 && id as nat in contribs {
        return Ok(Some(contribs[id as nat]));
      }
      return Ok(None);
    }

    method UpdateContribution(id: nat, code: string) returns (r: Result<()>)
      modifies this
      ensures old(Valid()) ==> Valid()
      ensures match UpdateCode(old(State()), id, code)
        case Err => r.Err? && State() == old(State())
        case Ok(st) => r.Ok? && State() == st
    {
      if UpdateOp in failing {
        return Err;
      }
      if id in contribs {
        contribs := contribs[id := contribs[id].(code := code)];
      }
      return Ok(());
    }

    method DeleteContribution(id: nat) returns (r: Result<()>)
      modifies this
      ensures old(Valid()) ==> Valid()
      ensures match Delete(old(State()), id)
        case Err => r.Err? && State() == old(State())
        case Ok(st) => r.Ok? && State() == st
    {
      if DeleteOp in failing {
        return Err;
      }
      contribs := contribs - {id};
      return Ok(());
    }

    method CreateContribution(username: string, filename: string, lineNumber: Option<int>, code: string) returns (r: Result<nat>)
      modifies this
      ensures old(Valid()) ==> Valid()
      ensures match Create(old(State()), username, filename, lineNumber, code)
        case Err => r.Err? && State() == old(State())
        case Ok(created) => r == Ok(created.1) && State() == created.0
    {
      if CreateOp in failing {
        return Err;
      }
      var id := nextId;
      contribs := contribs[id := Contribution(id, username, filename, lineNumber, code, PENDING)];
      nextId := id + 1;
      return Ok(id);
    }

    method CheckContributionConflicts(filename: string, lineNumber: Option<int>, codeHash: string, username: string) returns (r: Result<Conflicts>)
      ensures r == CheckConflicts(State(), filename, lineNumber, codeHash, username)
    {
      r := CheckConflicts(State(), filename, lineNumber, codeHash, username);
    }

    method GetSettingsRecord() returns (r: Result<Option<Settings>>)
      ensures r == GetSettings(State())
    {
      if SettingsOp in failing {
        return Err;
      }
      return Ok(settings);
    }

    method GetUserContributions(username: string, limit: nat) returns (r: Result<seq<Contribution>>)
      requires Valid()
      ensures r == UserContributions(State(), username, limit)
    {
      r := UserContributions(State(), username, limit);
    }

    method GetFileContributions(filename: string, limit: nat) returns (r: Result<seq<Contribution>>)
      requires Valid()
      ensures r == FileContributions(State(), filename, limit)
    {
      r := FileContributions(State(), filename, limit);
    }
  }

  // ---------------------------------------------------------------------
  // Properties

  /** Updating a record's code leaves every other record, and every other field, as it was. */
  lemma UpdateChangesOnlyCode(st: StoreState, id: nat, code: string)
    requires UpdateCode(st, id, code).Ok?
    ensures var st' := UpdateCode(st, id, code).value;
      && st'.contribs.Keys == st.contribs.Keys
      && st'.nextId == st.nextId
      && (forall other :: other in st.contribs && other != id ==> st'.contribs[other] == st.contribs[other])
      && (id in st.contribs ==> st'.contribs[id] == st.contribs[id].(code := code))
  {
  }

  /** Deleting removes exactly that record. */
  lemma DeleteRemovesOnlyIt(st: StoreState, id: nat)
    requires Delete(st, id).Ok?
    ensures var st' := Delete(st, id).value;
      && st'.contribs.Keys == st.contribs.Keys - {id}
      && (forall other :: other in st'.contribs ==> st'.contribs[other] == st.contribs[other])
  {
  }

  /** A created record is new, pending, and owned by its creator; nothing else changes. */
  lemma CreateAddsPendingRecord(st: StoreState, username: string, filename: string, lineNumber: Option<int>, code: string)
    requires ValidState(st)
    requires Create(st, username, filename, lineNumber, code).Ok?
    ensures var (st', id) := Create(st, username, filename, lineNumber, code).value;
      && id !in st.contribs
      && st'.contribs == st.contribs[id := Contribution(id, username, filename, lineNumber, code, PENDING)]
      && ValidState(st')
  {
  }

  /** The user's list holds at most `limit` of that user's own records, newest first. */
  lemma UserContributionsAreOwn(st: StoreState, username: string, limit: nat)
    requires ValidState(st)
    requires UserContributions(st, username, limit).Ok?
    ensures var r := UserContributions(st, username, limit).value;
      && |r| <= limit
      && (forall i :: 0 <= i < |r| ==> r[i].username == username && r[i].id in st.contribs && st.contribs[r[i].id] == r[i])
      && (forall i, j :: 0 <= i < j < |r| ==> r[i].id > r[j].id)
  {
    var all := Matching(st.contribs, ByUser(username), st.nextId);
    var r := UserContributions(st, username, limit).value;
    assert forall i :: 0 <= i < |r| ==> r[i] == all[i];
  }

  /** Every record satisfying `P` below the bound is listed. */
  lemma {:induction false} MatchingComplete(contribs: map<nat, Contribution>, P: Contribution -> bool, below: nat, id: nat)
    requires forall k :: k in contribs ==> contribs[k].id == k
    requires id in contribs && id < below && P(contribs[id])
    ensures contribs[id] in Matching(contribs, P, below)
    decreases below
  {
    if id < below - 1 {
      MatchingComplete(contribs, P, below - 1, id);
    }
  }

  /** With fewer than `limit` records of the user, the list holds all of them. */
  lemma UserContributionsComplete(st: StoreState, username: string, limit: nat, id: nat)
    requires ValidState(st)
    requires UserContributions(st, username, limit).Ok?
    requires |Matching(st.contribs, ByUser(username), st.nextId)| < limit
    requires id in st.contribs && st.contribs[id].username == username
    ensures st.contribs[id] in UserContributions(st, username, limit).value
  {
    MatchingComplete(st.contribs, ByUser(username), st.nextId, id);
  }
}

/** The database side of users.go: the users table as a map from the numeric
    user ID to the eleven stat columns, the queries the bot runs against it,
    and the roster reconciliation that decides which guild members still need
    a row. A failure of the database itself (connection, transport) is not
    modelled mechanically: each operation takes a `fault` flag that stands for
    it. */
module Store {
  import opened Strconv
  import opened Utils
  import opened Users

  /** The eleven stat columns of a row in the users table; user_id is the key. */
  datatype Row = Row(
    level: int,
    exp: int,
    maxHp: int,
    currentHP: int,
    maxMp: int,
    currentMP: int,
    strength: int,
    agility: int,
    intelligence: int,
    defence: int,
    mDefence: int)

  datatype StoreError =
    | Transport     // the database could not be reached or the statement failed
    | InvalidId     // the text user ID is not a number the user_id column accepts
    | NoRows        // pgx.ErrNoRows: a single-row query found nothing
    | DuplicateKey  // the bulk copy would create a second row for a user_id
    | NotUpdated    // an update affected a number of rows other than one

  datatype Result<T> = Ok(value: T) | Err(error: StoreError)

  datatype Outcome = Pass | Fail(error: StoreError)

  type Table = map<uint64, Row>

  /** The columns addUsersToDB copies for one user. */
  function RowOf(u: User): (r: Row)
    ensures UserOf(u.userID, r) == u
  {
    Row(u.level, u.exp, u.maxHp, u.currentHP, u.maxMp, u.currentMP,
        u.strength, u.agility, u.intelligence, u.defence, u.mDefence)
  }

  /** The user getUserStatus builds: the requested ID and the scanned columns. */
  function UserOf(id: string, r: Row): User {
    User(id, r.level, r.exp, r.maxHp, r.currentHP, r.maxMp, r.currentMP,
         r.strength, r.agility, r.intelligence, r.defence, r.mDefence)
  }

  /** The key a text user ID selects in a `WHERE user_id=$1` query. */
  function SqlKey(id: string): (k: Option<uint64>)
    ensures k.Some? <==> IsDecimalUint64(id)
    ensures k.Some? ==> k.value == StringToInt(id)
  {
    if IsDecimalUint64(id) then Some(Value(id)) else None
  }

  /** The key addUsersToDB writes for a user: stringToInt of its ID. */
  function Key(u: User): uint64 {
    StringToInt(u.userID)
  }

  /** The stored IDs as lookUpNewUsers renders them: intToString of each key. */
  function StoredIds(rows: Table): set<string> {
    set k | k in rows :: IntToString(k)
  }

  /** The rows a copy of `users` adds, built in the order the copy runs. */
  function Batch(users: seq<User>): Table
    decreases |users|
  {
    if users == [] then map[]
    else
      var last := users[|users| - 1];
      Batch(users[..|users| - 1])[Key(last) := RowOf(last)]
  }

  /** The copy succeeds row by row: each row's key is new to the table and
      to the rows copied before it. */
  predicate Insertable(rows: Table, users: seq<User>)
    decreases |users|
  {
    users == [] ||
    var last := users[|users| - 1];
    && Insertable(rows, users[..|users| - 1])
    && Key(last) !in rows
    && Key(last) !in Batch(users[..|users| - 1])
  }

  /** The users lookUpNewUsers returns: in member order, a default user for
      each member that has no stored row and is not the bot. */
  function NewUsers(members: seq<string>, stored: set<string>, botID: string): seq<User>
    decreases |members|
  {
    if members == [] then []
    else
      var m := members[|members| - 1];
      NewUsers(members[..|members| - 1], stored, botID) +
        (if m !in stored && botID != m then [CreateDefaultUser(m)] else [])
  }

  /** The users table, as the bot sees it through dbPool. */
  class UserStore {
    var rows: Table

    constructor (rows: Table)
      ensures this.rows == rows
    {
      this.rows := rows;
    }

    /** lookUpNewUsers: read every stored user_id, render it with
        intToString, then keep the members that are neither stored nor the bot. */
    method LookUpNewUsers(members: seq<string>, botID: string, fault: bool) returns (r: Result<seq<User>>)
      ensures fault ==> r == Err(Transport)
      ensures !fault ==> r == Ok(NewUsers(members, StoredIds(rows), botID))
    {
      if fault {
        return Err(Transport);
      }
      var currentUsers: set<string> := {};
      var pending := rows.Keys;
      while pending != {}
        invariant pending <= rows.Keys
        invariant currentUsers == set k | k in rows.Keys - pending :: IntToString(k)
        decreases pending
      {
        var id :| id in pending;
        currentUsers := currentUsers + {IntToString(id)};
        pending := pending - {id};
      }
      assert rows.Keys - pending == rows.Keys;
      assert currentUsers == StoredIds(rows);
      var newUsers := [];
      for i := 0 to |members|
        invariant newUsers == NewUsers(members[..i], currentUsers, botID)
      {
        assert members[..i + 1][..i] == members[..i];
        if members[i] !in currentUsers && botID != members[i] {
          newUsers := newUsers + [CreateDefaultUser(members[i])];
        }
      }
      assert members[..|members|] == members;
      return Ok(newUsers);
    }

    /** addUsersToDB: one bulk copy of every user's columns keyed by
        stringToInt of its ID. The copy is atomic: a key that is already
        stored or repeated in the batch aborts it and nothing is written. */
    method AddUsers(users: seq<User>, fault: bool) returns (r: Outcome)
      modifies this
      ensures fault ==> r == Fail(Transport) && rows == old(rows)
      ensures !fault ==> (r == Pass <==> Insertable(old(rows), users))
      ensures !fault && !r.Pass? ==> r == Fail(DuplicateKey)
      ensures r == Pass ==> rows == old(rows) + Batch(users)
      ensures r != Pass ==> rows == old(rows)
    {
      if fault {
        return Fail(Transport);
      }
      var batch: Table := map[];
      var i := 0;
      while i < |users|
        invariant 0 <= i <= |users|
        invariant batch == Batch(users[..i])
        invariant Insertable(rows, users[..i])
      {
        assert users[..i + 1][..i] == users[..i];
        var key := StringToInt(users[i].userID);
        if key in rows || key in batch {
          InsertablePrefix(rows, users, i + 1);
          return Fail(DuplicateKey);
        }
        batch := batch[key := RowOf(users[i])];
        i := i + 1;
      }
      assert users[..|users|] == users;
      rows := rows + batch;
      return Pass;
    }

    /** getUserStatus: the row of the user, or pgx.ErrNoRows. */
    method GetUserStatus(userID: string, fault: bool) returns (r: Result<User>)
      ensures fault ==> r == Err(Transport)
      ensures !fault ==> r == Fetch(rows, userID)
    {
      if fault {
        return Err(Transport);
      }
      var key := SqlKey(userID);
      if key.None? {
        return Err(InvalidId);
      }
      if key.value !in rows {
        return Err(NoRows);
      }
      return Ok(UserOf(userID, rows[key.value]));
    }

    /** doesUserExistInDB: `SELECT true ... WHERE user_id=$1`, with
        pgx.ErrNoRows turned into a plain `false`. */
    method DoesUserExist(userID: string, fault: bool) returns (r: Result<bool>)
      ensures fault ==> r == Err(Transport)
      ensures !fault && SqlKey(userID).None? ==> r == Err(InvalidId)
      ensures !fault && SqlKey(userID).Some? ==> r == Ok(SqlKey(userID).value in rows)
    {
      var row := SelectTrue(userID, fault);
      if row.Err? {
        if row.error == NoRows {
          return Ok(false);
        }
        return Err(row.error);
      }
      return Ok(row.value);
    }

    /** The single-row query of doesUserExistInDB before its error is inspected. */
    method SelectTrue(userID: string, fault: bool) returns (r: Result<bool>)
      ensures fault ==> r == Err(Transport)
      ensures !fault && SqlKey(userID).None? ==> r == Err(InvalidId)
      ensures !fault && SqlKey(userID).Some? ==>
        r == if SqlKey(userID).value in rows then Ok(true) else Err(NoRows)
    {
      if fault {
        return Err(Transport);
      }
      var key := SqlKey(userID);
      if key.None? {
        return Err(InvalidId);
      }
      if key.value in rows {
        return Ok(true);
      }
      return Err(NoRows);
    }

    /** levelup: `UPDATE users SET level = level + 1 WHERE user_id=$1`, an
        error unless exactly one row was affected. */
    method Levelup(userID: string, fault: bool) returns (r: Outcome)
      modifies this
      ensures fault ==> r == Fail(Transport)
      ensures !fault && SqlKey(userID).None? ==> r == Fail(InvalidId)
      ensures !fault && SqlKey(userID).Some? && SqlKey(userID).value !in old(rows) ==> r == Fail(NotUpdated)
      ensures r != Pass ==> rows == old(rows)
      ensures r == Pass <==> !fault && SqlKey(userID).Some? && SqlKey(userID).value in old(rows)
      ensures r == Pass ==> rows == IncrementLevel(old(rows), SqlKey(userID).value)
    {
      if fault {
        return Fail(Transport);
      }
      var key := SqlKey(userID);
      if key.None? {
        return Fail(InvalidId);
      }
      var affected := if key.value in rows then 1 else 0;
      if affected != 1 {
        return Fail(NotUpdated);
      }
      rows := IncrementLevel(rows, key.value);
      return Pass;
    }
  }

  /** What getUserStatus reads for a text user ID: the user with that ID and
      the columns of its row; an ID the key column cannot hold is an error,
      and so is an ID with no row (pgx.ErrNoRows). */
  function Fetch(rows: Table, id: string): (r: Result<User>)
    ensures r.Ok? <==> SqlKey(id).Some? && SqlKey(id).value in rows
    ensures r.Ok? ==> r.value.userID == id && RowOf(r.value) == rows[StringToInt(id)]
    ensures r.Err? ==> r.error == (if SqlKey(id).None? then InvalidId else NoRows)
  {
    match SqlKey(id)
    case None => Err(InvalidId)
    case Some(k) => if k in rows then Ok(UserOf(id, rows[k])) else Err(NoRows)
  }

  /** The table after the level of the row under key k went up by one. */
  function IncrementLevel(rows: Table, k: uint64): Table
    requires k in rows
  {
    rows[k := rows[k].(level := rows[k].level + 1)]
  }

  // Properties of the specification functions.

  lemma {:induction false} InsertablePrefix(rows: Table, users: seq<User>, i: nat)
    requires i <= |users|
    ensures Insertable(rows, users) ==> Insertable(rows, users[..i])
    decreases |users| - i
  {
    if i < |users| {
      var p := users[..|users| - 1];
      assert p[..i] == users[..i];
      InsertablePrefix(rows, p, i);
    } else {
      assert users[..i] == users;
    }
  }

  /** The reconciliation keeps exactly the members that are neither stored
      nor the bot, each as a default user, and never grows the list. */
  lemma {:induction false} NewUsersMeaning(members: seq<string>, stored: set<string>, botID: string)
    ensures var r := NewUsers(members, stored, botID);
      && |r| <= |members|
      && (forall u :: u in r ==>
            u == CreateDefaultUser(u.userID) && u.userID in members &&
            u.userID !in stored && u.userID != botID)
      && (forall m :: m in members && m !in stored && m != botID ==> CreateDefaultUser(m) in r)
    decreases |members|
  {
    if members != [] {
      var p := members[..|members| - 1];
      NewUsersMeaning(p, stored, botID);
      assert members == p + [members[|members| - 1]];
    }
  }

  /** Reconciling a roster piece by piece gives the same list, in the same
      order, as reconciling it at once. */
  lemma {:induction false} NewUsersAppend(a: seq<string>, b: seq<string>, stored: set<string>, botID: string)
    ensures NewUsers(a + b, stored, botID) == NewUsers(a, stored, botID) + NewUsers(b, stored, botID)
    decreases |b|
  {
    if b == [] {
      assert a + b == a;
    } else {
      var p := b[..|b| - 1];
      assert (a + b)[..|a + b| - 1] == a + p;
      NewUsersAppend(a, p, stored, botID);
    }
  }

  /** The roster with every occurrence of the bot's own ID removed, in order. */
  function WithoutBot(members: seq<string>, botID: string): seq<string>
    decreases |members|
  {
    if members == [] then []
    else
      var m := members[|members| - 1];
      WithoutBot(members[..|members| - 1], botID) + (if m != botID then [m] else [])
  }

  /** The filtered roster holds exactly the members other than the bot. */
  lemma {:induction false} WithoutBotMeaning(members: seq<string>, botID: string)
    ensures forall m :: m in WithoutBot(members, botID) <==> m in members && m != botID
    decreases |members|
  {
    if members != [] {
      var p := members[..|members| - 1];
      WithoutBotMeaning(p, botID);
      assert members == p + [members[|members| - 1]];
    }
  }

  /** Filtering a roster piece by piece gives the same list as filtering it at once. */
  lemma {:induction false} WithoutBotAppend(a: seq<string>, b: seq<string>, botID: string)
    ensures WithoutBot(a + b, botID) == WithoutBot(a, botID) + WithoutBot(b, botID)
    decreases |b|
  {
    if b == [] {
      assert a + b == a;
    } else {
      var p := b[..|b| - 1];
      assert (a + b)[..|a + b| - 1] == a + p;
      WithoutBotAppend(a, p, botID);
    }
  }

  /** A roster without the bot is left as it is. */
  lemma {:induction false} WithoutBotAbsent(members: seq<string>, botID: string)
    requires botID !in members
    ensures WithoutBot(members, botID) == members
    decreases |members|
  {
    if members != [] {
      var p := members[..|members| - 1];
      assert forall m :: m in p ==> m in members;
      WithoutBotAbsent(p, botID);
      assert members == p + [members[|members| - 1]];
    }
  }

  /** A roster in which the bot appears once, at position j, loses just that entry. */
  lemma WithoutBotOnce(members: seq<string>, botID: string, j: nat)
    requires j < |members| && members[j] == botID
    requires botID !in members[..j] + members[j + 1..]
    ensures WithoutBot(members, botID) == members[..j] + members[j + 1..]
  {
    var a, b := members[..j], members[j + 1..];
    assert members == a + [botID] + b;
    assert botID !in a && botID !in b;
    WithoutBotAppend(a + [botID], b, botID);
    WithoutBotAppend(a, [botID], botID);
    assert [botID][..0] == [];
    assert WithoutBot([botID], botID) == [];
    WithoutBotAbsent(a, botID);
    WithoutBotAbsent(b, botID);
    assert a + [] == a;
  }

  /** With an empty table every member except the bot is new: the result is
      a default user for each entry of the roster with the bot filtered out,
      position by position. */
  lemma {:induction false} NewUsersEmptyTable(members: seq<string>, botID: string)
    ensures var r := NewUsers(members, StoredIds(map[]), botID);
      var f := WithoutBot(members, botID);
      |r| == |f| && forall i :: 0 <= i < |r| ==> r[i] == CreateDefaultUser(f[i])
    decreases |members|
  {
    assert StoredIds(map[]) == {};
    if members != [] {
      var p := members[..|members| - 1];
      NewUsersEmptyTable(p, botID);
    }
  }

  /** The roster guildCreate receives holds the bot once: with an empty
      table every other member is new, in member order. */
  lemma NewUsersEmptyTableBotOnce(members: seq<string>, botID: string, j: nat)
    requires j < |members| && members[j] == botID
    requires botID !in members[..j] + members[j + 1..]
    ensures var r := NewUsers(members, StoredIds(map[]), botID);
      var rest := members[..j] + members[j + 1..];
      |r| == |rest| && forall i :: 0 <= i < |r| ==> r[i] == CreateDefaultUser(rest[i])
  {
    WithoutBotOnce(members, botID, j);
    NewUsersEmptyTable(members, botID);
  }

  /** A member ID counts as stored exactly when it is the canonical decimal
      rendering of a stored key. */
  lemma StoredIdsMeaning(rows: Table, id: string)
    ensures id in StoredIds(rows) <==> IsCanonical(id) && Value(id) <= MaxUint64 && StringToInt(id) in rows
  {
    if id in StoredIds(rows) {
      var k :| k in rows && IntToString(k) == id;
      StringToIntOfIntToString(k);
    }
    if IsCanonical(id) && Value(id) <= MaxUint64 && StringToInt(id) in rows {
      IntToStringOfStringToInt(id);
    }
  }

  /** No two users share a key. */
  predicate DistinctKeys(users: seq<User>) {
    forall i, j :: 0 <= i < j < |users| ==> Key(users[i]) != Key(users[j])
  }

  /** The keys of a batch are the keys of its users. */
  lemma {:induction false} BatchKeys(users: seq<User>)
    ensures forall k :: k in Batch(users) <==> exists i :: 0 <= i < |users| && Key(users[i]) == k
    decreases |users|
  {
    if users != [] {
      var n := |users| - 1;
      var p := users[..n];
      BatchKeys(p);
      assert Batch(users) == Batch(p)[Key(users[n]) := RowOf(users[n])];
      forall k | k in Batch(users)
        ensures exists i :: 0 <= i < |users| && Key(users[i]) == k
      {
        if k != Key(users[n]) {
          assert k in Batch(p);
          var i :| 0 <= i < |p| && Key(p[i]) == k;
          assert Key(users[i]) == k;
        }
      }
      forall k | exists i :: 0 <= i < |users| && Key(users[i]) == k
        ensures k in Batch(users)
      {
        var i :| 0 <= i < |users| && Key(users[i]) == k;
        if i < n {
          assert Key(p[i]) == k;
        }
      }
    }
  }

  /** With no repeated key, a batch holds each user's row unchanged. */
  lemma {:induction false} BatchRows(users: seq<User>)
    requires DistinctKeys(users)
    ensures forall i :: 0 <= i < |users| ==>
      Key(users[i]) in Batch(users) && Batch(users)[Key(users[i])] == RowOf(users[i])
    decreases |users|
  {
    if users != [] {
      var n := |users| - 1;
      var p := users[..n];
      assert DistinctKeys(p) by {
        forall i, j | 0 <= i < j < |p| ensures Key(p[i]) != Key(p[j]) {
          assert Key(users[i]) != Key(users[j]);
        }
      }
      BatchRows(p);
      BatchKeys(p);
      forall i | 0 <= i < |users| ensures Batch(users)[Key(users[i])] == RowOf(users[i]) {
        if i < n {
          assert Key(users[i]) != Key(users[n]);
          assert Key(p[i]) == Key(users[i]);
        }
      }
    }
  }

  /** Every user of an insertable batch has a key new to the table and to the other users. */
  lemma {:induction false} InsertableDistinct(rows: Table, users: seq<User>)
    requires Insertable(rows, users)
    ensures DistinctKeys(users)
    ensures forall i :: 0 <= i < |users| ==> Key(users[i]) !in rows
    decreases |users|
  {
    if users != [] {
      var n := |users| - 1;
      var p := users[..n];
      InsertableDistinct(rows, p);
      BatchKeys(p);
      forall i, j | 0 <= i < j < |users| ensures Key(users[i]) != Key(users[j]) {
        if j == n {
          assert Key(p[i]) == Key(users[i]);
        } else {
          assert Key(p[i]) != Key(p[j]);
        }
      }
      forall i | 0 <= i < |users| ensures Key(users[i]) !in rows {
        if i < n {
          assert Key(p[i]) !in rows;
        }
      }
    }
  }

  /** Users with distinct keys none of which is stored can be copied. */
  lemma {:induction false} DistinctInsertable(rows: Table, users: seq<User>)
    requires DistinctKeys(users)
    requires forall i :: 0 <= i < |users| ==> Key(users[i]) !in rows
    ensures Insertable(rows, users)
    decreases |users|
  {
    if users != [] {
      var n := |users| - 1;
      var p := users[..n];
      assert DistinctKeys(p) by {
        forall i, j | 0 <= i < j < |p| ensures Key(p[i]) != Key(p[j]) {
          assert Key(users[i]) != Key(users[j]);
        }
      }
      assert forall i :: 0 <= i < |p| ==> Key(p[i]) !in rows by {
        forall i | 0 <= i < |p| ensures Key(p[i]) !in rows {
          assert Key(users[i]) !in rows;
        }
      }
      DistinctInsertable(rows, p);
      BatchKeys(p);
    }
  }

  /** The copy succeeds exactly when no two users share a key and no user's
      key is stored already. */
  lemma InsertableMeaning(rows: Table, users: seq<User>)
    ensures Insertable(rows, users) <==>
      DistinctKeys(users) && forall i :: 0 <= i < |users| ==> Key(users[i]) !in rows
  {
    if Insertable(rows, users) {
      InsertableDistinct(rows, users);
    }
    if DistinctKeys(users) && forall i :: 0 <= i < |users| ==> Key(users[i]) !in rows {
      DistinctInsertable(rows, users);
    }
  }

  /** Copying users one of whose IDs is already stored always fails: the
      copy never silently skips a known user. */
  lemma AddingStoredUserFails(rows: Table, users: seq<User>, i: nat)
    requires i < |users| && Key(users[i]) in rows
    ensures !Insertable(rows, users)
  {
    InsertableMeaning(rows, users);
  }

  /** After the reconciliation's users are copied, every member other than
      the bot has a row: the stored ones kept theirs and the others got one. */
  lemma ReconciledMembersCovered(rows: Table, members: seq<string>, botID: string)
    ensures var added := Batch(NewUsers(members, StoredIds(rows), botID));
      forall m :: m in members && m != botID ==> StringToInt(m) in rows + added
  {
    var r := NewUsers(members, StoredIds(rows), botID);
    NewUsersMeaning(members, StoredIds(rows), botID);
    BatchKeys(r);
    forall m | m in members && m != botID
      ensures StringToInt(m) in rows + Batch(r)
    {
      StoredIdsMeaning(rows, m);
      if m !in StoredIds(rows) {
        var u := CreateDefaultUser(m);
        assert u in r;
        var i :| 0 <= i < |r| && r[i] == u;
        assert Key(r[i]) == StringToInt(m);
      }
    }
  }

  /** When every member ID is a canonical snowflake and none repeats, the
      reconciliation's users can always be copied: only a database failure
      can make guildCreate's insert fail. */
  lemma ReconciledInsertable(rows: Table, members: seq<string>, botID: string)
    requires forall m :: m in members ==> IsCanonical(m) && Value(m) <= MaxUint64
    requires forall i, j :: 0 <= i < j < |members| ==> members[i] != members[j]
    ensures Insertable(rows, NewUsers(members, StoredIds(rows), botID))
  {
    var r := NewUsers(members, StoredIds(rows), botID);
    ReconciledKeysNew(rows, members, botID);
    ReconciledKeysDistinct(rows, members, botID);
    assert forall i :: 0 <= i < |r| ==> Key(r[i]) !in rows by {
      forall i | 0 <= i < |r| ensures Key(r[i]) !in rows {
        assert r[i] in r;
      }
    }
    DistinctInsertable(rows, r);
  }

  lemma ReconciledKeysNew(rows: Table, members: seq<string>, botID: string)
    requires forall m :: m in members ==> IsCanonical(m) && Value(m) <= MaxUint64
    ensures forall u :: u in NewUsers(members, StoredIds(rows), botID) ==> Key(u) !in rows
  {
    var r := NewUsers(members, StoredIds(rows), botID);
    NewUsersMeaning(members, StoredIds(rows), botID);
    forall u | u in r ensures Key(u) !in rows {
      StoredIdsMeaning(rows, u.userID);
    }
  }

  lemma ReconciledKeysDistinct(rows: Table, members: seq<string>, botID: string)
    requires forall m :: m in members ==> IsCanonical(m) && Value(m) <= MaxUint64
    requires forall i, j :: 0 <= i < j < |members| ==> members[i] != members[j]
    ensures DistinctKeys(NewUsers(members, StoredIds(rows), botID))
  {
    var r := NewUsers(members, StoredIds(rows), botID);
    NewUsersMeaning(members, StoredIds(rows), botID);
    NewUsersDistinct(members, StoredIds(rows), botID);
    forall i, j | 0 <= i < j < |r| ensures Key(r[i]) != Key(r[j]) {
      var u, v := r[i], r[j];
      assert u in r && v in r;
      assert u.userID != v.userID;
      if Key(u) == Key(v) {
        IntToStringOfStringToInt(u.userID);
        IntToStringOfStringToInt(v.userID);
      }
    }
  }

  /** Distinct member IDs give distinct new users. */
  lemma {:induction false} NewUsersDistinct(members: seq<string>, stored: set<string>, botID: string)
    requires forall i, j :: 0 <= i < j < |members| ==> members[i] != members[j]
    ensures var r := NewUsers(members, stored, botID);
      forall i, j :: 0 <= i < j < |r| ==> r[i].userID != r[j].userID
    decreases |members|
  {
    if members != [] {
      var p := members[..|members| - 1];
      var last := members[|members| - 1];
      NewUsersDistinct(p, stored, botID);
      NewUsersMeaning(p, stored, botID);
      var q := NewUsers(p, stored, botID);
      forall u | u in q ensures u.userID != last {
        var i :| 0 <= i < |p| && p[i] == u.userID;
      }
    }
  }

  /** levelup touches one row and one column: the level of the row under k
      goes up by one; every key, every other row and every other column stay. */
  lemma IncrementLevelEffect(rows: Table, k: uint64)
    requires k in rows
    ensures var after := IncrementLevel(rows, k);
      && after.Keys == rows.Keys
      && after[k].level == rows[k].level + 1
      && after[k] == rows[k].(level := after[k].level)
      && forall j :: j in rows && j != k ==> after[j] == rows[j]
  {
  }

  /** A user copied by addUsersToDB is read back unchanged by getUserStatus,
      provided its ID is a well-formed snowflake. */
  lemma FetchAfterInsert(rows: Table, users: seq<User>, i: nat)
    requires Insertable(rows, users)
    requires i < |users| && IsDecimalUint64(users[i].userID)
    ensures Fetch(rows + Batch(users), users[i].userID) == Ok(users[i])
  {
    InsertableDistinct(rows, users);
    BatchRows(users);
  }

  /** After a levelup, getUserStatus reports the same user one level higher. */
  lemma FetchAfterLevelup(rows: Table, id: string)
    requires SqlKey(id).Some? && SqlKey(id).value in rows
    ensures var before := Fetch(rows, id);
      var after := Fetch(IncrementLevel(rows, SqlKey(id).value), id);
      before.Ok? && after.Ok? && after.value == before.value.(level := before.value.level + 1)
  {
  }
}

/** The backend of the CRM (server/index.js): a JSON document of eight named
    collections kept in one file, the session lookup that decides who the
    caller is (falling back to a demo user), the owner-scoped handlers that
    every record collection shares, and the profile handlers.

    The file is the field `disk` of a `Server`; `writes` counts how often it
    was rewritten. Each request handler is one atomic step that reads the
    document, changes its own copy and writes it back. The clock, the new
    record's id and its ISO timestamp are parameters. */
module Store {
  import opened Wrappers
  import Seqs
  import Strings

  /** A field value as the handlers compare it with `===`. Reading a missing
      field gives `Undefined`. */
  datatype Value = Undefined | Null | Bool(b: bool) | Num(n: int) | Str(s: string)

  /** A stored object: field name to value. */
  type Record = map<string, Value>

  /** `record.key`. */
  function Get(r: Record, key: string): Value
  {
    if key in r then r[key] else Undefined
  }

  /** The parsed content of the database file: collection name to records. */
  type Document = map<string, seq<Record>>

  /** The database file: a parsed document, or content `JSON.parse` rejects. */
  datatype Disk = Parsed(doc: Document) | Unparseable

  const Collections: seq<string> :=
    ["users", "sessions", "contacts", "leads", "tasks", "events", "documents", "emails"]

  const DemoUserId: string := "demo-user-id"

  /** The user the demo fallback inserts, and the profile `GET /api/user`
      answers when the caller has no user record. */
  const DemoUser: Record := map[
    "id" := Str(DemoUserId),
    "name" := Str("Demo User"),
    "email" := Str("demo@example.com"),
    "title" := Str("Pro Plan"),
    "avatar" := Str("https://ui-avatars.com/api/?name=Demo+User&background=0D8ABC&color=fff")]

  /** Every required collection is present. */
  predicate Complete(db: Document)
  {
    "users" in db && "sessions" in db && forall k :: k in Collections ==> k in db
  }

  predicate MissingAny(parsed: Document)
  {
    exists k :: k in Collections && k !in parsed
  }

  /** `INITIAL_DATA`: every collection, all empty. */
  const InitialData: Document := map k | k in Collections :: []

  /** The document with each missing collection added as an empty list. */
  function Widen(parsed: Document): (db: Document)
    ensures Complete(db)
    ensures forall k :: k in parsed ==> k in db && db[k] == parsed[k]
    ensures forall k :: k in db && k !in parsed ==> k in Collections && db[k] == []
  {
    parsed + map k | k in Collections && k !in parsed :: []
  }

  /** The `forEach` of `readDB` over the collection names: add each missing
      collection and note that the file needs rewriting. */
  method WidenSchema(parsed: Document) returns (db: Document, needsSave: bool)
    ensures db == Widen(parsed)
    ensures needsSave <==> MissingAny(parsed)
  {
    db, needsSave := parsed, false;
    for i := 0 to |Collections|
      invariant forall k :: k in db <==> k in parsed || k in Collections[..i]
      invariant forall k :: k in db ==> db[k] == if k in parsed then parsed[k] else []
      invariant needsSave <==> exists k :: k in Collections[..i] && k !in parsed
    {
      var key := Collections[i];
      assert Collections[..i + 1] == Collections[..i] + [key];
      if key !in db {
        db := db[key := []];
        needsSave := true;
      }
    }
    assert Collections[..|Collections|] == Collections;
  }

  /** What `readDB` returns for the file's content. */
  function Loaded(disk: Disk): (db: Document)
    ensures Complete(db)
    ensures disk.Parsed? ==> forall k :: k in disk.doc ==> k in db && db[k] == disk.doc[k]
  {
    match disk
    case Parsed(d) => Widen(d)
    case Unparseable => InitialData
  }

  /** The file after `readDB`: rewritten only when a collection was missing. */
  function AfterRead(disk: Disk): Disk
  {
    match disk
    case Parsed(d) => if MissingAny(d) then Parsed(Widen(d)) else disk
    case Unparseable => disk
  }

  function ReadWrites(disk: Disk): nat
  {
    if disk.Parsed? && MissingAny(disk.doc) then 1 else 0
  }

  /** A complete document is left as it is by widening. */
  lemma WidenComplete(d: Document)
    requires !MissingAny(d)
    ensures Widen(d) == d
  {
    assert forall k :: k in Widen(d) <==> k in d;
  }

  /** After one read the file is complete: reading it again changes nothing
      and writes nothing, and what a read returns is what the file holds. */
  lemma ReadIsStable(disk: Disk)
    ensures Loaded(AfterRead(disk)) == Loaded(disk)
    ensures AfterRead(AfterRead(disk)) == AfterRead(disk)
    ensures ReadWrites(AfterRead(disk)) == 0
    ensures disk.Parsed? ==> AfterRead(disk) == Parsed(Loaded(disk))
  {
    if disk.Parsed? {
      var d := disk.doc;
      assert !MissingAny(Widen(d));
      WidenComplete(Widen(d));
      if !MissingAny(d) {
        WidenComplete(d);
      }
    }
  }

  // ---------------------------------------------------------------- sessions

  /** The token in an `Authorization` header: the second space-separated
      word, when the header and that word are both non-empty. */
  function BearerToken(header: Option<string>): (token: Option<string>)
    ensures token.Some? ==> token.value != "" && ' ' !in token.value
  {
    if header.None? || header.value == "" then None
    else
      var words := Strings.Split(header.value, ' ');
      if |words| >= 2 && words[1] != "" then Some(words[1]) else None
  }

  /** The header the front end sends, `Bearer <token>`, yields that token. */
  lemma BearerTokenOfClientHeader(token: string)
    requires token != "" && ' ' !in token
    ensures BearerToken(Some("Bearer " + token)) == Some(token)
  {
    Strings.SplitFirstWord("Bearer", ' ', token);
    Strings.SplitWord(token, ' ');
    assert "Bearer" + [' '] + token == "Bearer " + token;
  }

  /** `s.expires > now`; an `expires` that is not a number counts as expired. */
  predicate Live(session: Record, now: int)
  {
    Get(session, "expires").Num? && Get(session, "expires").n > now
  }

  function LiveTest(now: int): Record -> bool
  {
    (s: Record) => Live(s, now)
  }

  predicate HoldsToken(session: Record, token: string)
  {
    Get(session, "token") == Str(token)
  }

  function TokenTest(token: string): Record -> bool
  {
    (s: Record) => HoldsToken(s, token)
  }

  /** `db.sessions.filter(s => s.expires > now)`. */
  function LiveSessions(sessions: seq<Record>, now: int): seq<Record>
  {
    Seqs.Filter(sessions, LiveTest(now))
  }

  /** The session a request authenticates with, if any. */
  function SessionFor(db: Document, token: Option<string>, now: int): Option<Record>
    requires Complete(db)
  {
    assert "sessions" == Collections[1];
    if token.None? then None
    else Seqs.FindFirst(LiveSessions(db["sessions"], now), TokenTest(token.value))
  }

  /** The `req.userId` that `authenticate` sets. */
  function Caller(db: Document, token: Option<string>, now: int): Value
    requires Complete(db)
  {
    match SessionFor(db, token, now)
    case Some(s) => Get(s, "userId")
    case None => Str(DemoUserId)
  }

  predicate IsDemoUser(u: Record)
  {
    Get(u, "id") == Str(DemoUserId)
  }

  predicate HasDemoUser(users: seq<Record>)
  {
    exists i :: 0 <= i < |users| && IsDemoUser(users[i])
  }

  function DemoCount(users: seq<Record>): nat
  {
    |Seqs.Filter(users, (u: Record) => IsDemoUser(u))|
  }

  /** Whether the session garbage collection rewrites the file. */
  predicate DropsSessions(db: Document, token: Option<string>, now: int)
    requires Complete(db)
  {
    assert "sessions" == Collections[1];
    token.Some? && |LiveSessions(db["sessions"], now)| != |db["sessions"]|
  }

  /** Whether the demo fallback inserts the demo user. */
  predicate InsertsDemoUser(db: Document, token: Option<string>, now: int)
    requires Complete(db)
  {
    assert "users" == Collections[0];
    SessionFor(db, token, now).None? && !HasDemoUser(db["users"])
  }

  /** The document as `authenticate` leaves it. */
  function AfterAuth(db: Document, token: Option<string>, now: int): (db': Document)
    requires Complete(db)
    ensures Complete(db')
  {
    assert "sessions" == Collections[1] && "users" == Collections[0];
    var collected :=
      if DropsSessions(db, token, now) then db["sessions" := LiveSessions(db["sessions"], now)] else db;
    if InsertsDemoUser(db, token, now) then collected["users" := db["users"] + [DemoUser]] else collected
  }

  function AuthWrites(db: Document, token: Option<string>, now: int): nat
    requires Complete(db)
  {
    (if DropsSessions(db, token, now) then 1 else 0) + (if InsertsDemoUser(db, token, now) then 1 else 0)
  }

  /** Who the caller is: the owner of the first unexpired session holding the
      request's token. */
  lemma CallerIsFirstMatch(db: Document, token: string, now: int, i: nat)
    requires Complete(db)
    requires i < |db["sessions"]| && Live(db["sessions"][i], now) && HoldsToken(db["sessions"][i], token)
    requires forall j :: 0 <= j < i ==> !(Live(db["sessions"][j], now) && HoldsToken(db["sessions"][j], token))
    ensures Caller(db, Some(token), now) == Get(db["sessions"][i], "userId")
  {
    var sessions := db["sessions"];
    Seqs.FindFirstOfFilter(sessions, LiveTest(now), TokenTest(token));
    Seqs.FindFirstIsFirstMatch(sessions, Seqs.Both(LiveTest(now), TokenTest(token)), i);
  }

  /** Without a token, or when no unexpired session holds it, the caller is
      the demo user. */
  lemma CallerFallback(db: Document, token: Option<string>, now: int)
    requires Complete(db)
    requires token.Some? ==>
      forall i :: 0 <= i < |db["sessions"]| ==> !(Live(db["sessions"][i], now) && HoldsToken(db["sessions"][i], token.value))
    ensures Caller(db, token, now) == Str(DemoUserId)
  {
    if token.Some? {
      var sessions := db["sessions"];
      Seqs.FindFirstOfFilter(sessions, LiveTest(now), TokenTest(token.value));
    }
  }

  /** With a token, the document afterwards holds exactly the unexpired
      sessions, in their order; the file is rewritten for that exactly when a
      session had expired. */
  lemma GarbageCollection(db: Document, token: Option<string>, now: int)
    requires Complete(db) && token.Some?
    ensures var sessions := db["sessions"];
      AfterAuth(db, token, now)["sessions"] == LiveSessions(sessions, now) &&
      Seqs.IsSubsequence(LiveSessions(sessions, now), sessions) &&
      (forall s :: s in LiveSessions(sessions, now) <==> s in sessions && Live(s, now)) &&
      (DropsSessions(db, token, now) <==> exists i :: 0 <= i < |sessions| && !Live(sessions[i], now))
  {
    assert "sessions" == Collections[1] && "users" == Collections[0];
    var sessions := db["sessions"];
    Seqs.FilterKeepsAll(sessions, LiveTest(now));
    Seqs.FilterIsSubsequence(sessions, LiveTest(now));
  }

  /** The demo fallback leaves a demo user in place, adds one only when none
      exists, and so never makes a second one: repeated fallback requests end
      with exactly one. */
  lemma DemoUserOnce(db: Document, token: Option<string>, now: int)
    requires Complete(db)
    ensures var before := DemoCount(db["users"]);
      var after := DemoCount(AfterAuth(db, token, now)["users"]);
      (Caller(db, token, now) == Str(DemoUserId) && SessionFor(db, token, now).None? ==> after >= 1) &&
      after == (if InsertsDemoUser(db, token, now) then 1 else before)
  {
    assert "sessions" == Collections[1] && "users" == Collections[0];
    var users := db["users"];
    var test := (u: Record) => IsDemoUser(u);
    var demos := Seqs.Filter(users, test);
    if InsertsDemoUser(db, token, now) {
      Seqs.FilterNone(users, test);
      Seqs.FilterConcat(users, [DemoUser], test);
      assert Seqs.Filter([DemoUser], test) == [DemoUser];
    } else if SessionFor(db, token, now).None? {
      var i :| 0 <= i < |users| && IsDemoUser(users[i]);
      assert users[i] in demos;
    }
  }

  // ------------------------------------------------------- owned collections

  predicate Owned(r: Record, userId: Value)
  {
    Get(r, "userId") == userId
  }

  function OwnedTest(userId: Value): Record -> bool
  {
    (r: Record) => Owned(r, userId)
  }

  /** The record an update or delete with this id addresses for this caller. */
  predicate Targets(r: Record, id: string, userId: Value)
  {
    Get(r, "id") == Str(id) && Owned(r, userId)
  }

  function TargetTest(id: string, userId: Value): Record -> bool
  {
    (r: Record) => Targets(r, id, userId)
  }

  function KeepTest(id: string, userId: Value): Record -> bool
  {
    (r: Record) => !Targets(r, id, userId)
  }

  /** `db[collectionName] || []`. */
  function Collection(db: Document, name: string): seq<Record>
  {
    if name in db then db[name] else []
  }

  /** The caller's records: `list.filter(item => item.userId === req.userId)`. */
  function OwnedBy(list: seq<Record>, userId: Value): seq<Record>
  {
    Seqs.Filter(list, OwnedTest(userId))
  }

  /** `getAll` answers exactly the caller's records, in stored order. */
  lemma OwnedByExactly(list: seq<Record>, userId: Value)
    ensures forall r :: r in OwnedBy(list, userId) <==> r in list && Owned(r, userId)
    ensures Seqs.IsSubsequence(OwnedBy(list, userId), list)
  {
    Seqs.FilterIsSubsequence(list, OwnedTest(userId));
  }

  /** `{ id, createdAt, userId, ...req.body }`: the stamps, with every field
      of the body written over them. */
  function NewItem(id: string, createdAt: string, userId: Value, body: Record): (item: Record)
    ensures item.Keys == body.Keys + {"id", "createdAt", "userId"}
    ensures forall k :: k in body ==> item[k] == body[k]
    ensures "id" !in body ==> item["id"] == Str(id)
    ensures "createdAt" !in body ==> item["createdAt"] == Str(createdAt)
    ensures "userId" !in body ==> item["userId"] == userId
  {
    map["id" := Str(id), "createdAt" := Str(createdAt), "userId" := userId] + body
  }

  /** After a create, the caller's list gains the new record at its end
      unless the body named another owner: the body's `userId` wins, so a
      caller can file a record under any user id. */
  lemma CreateThenList(list: seq<Record>, id: string, createdAt: string, userId: Value, body: Record, viewer: Value)
    ensures var item := NewItem(id, createdAt, userId, body);
      OwnedBy(list + [item], viewer) ==
        OwnedBy(list, viewer) + (if Get(item, "userId") == viewer then [item] else [])
    ensures var item := NewItem(id, createdAt, userId, body);
      Get(item, "userId") == (if "userId" in body then body["userId"] else userId)
  {
    var item := NewItem(id, createdAt, userId, body);
    Seqs.FilterConcat(list, [item], OwnedTest(viewer));
  }

  /** `const { userId, id, createdAt, ...updates } = req.body`. */
  function Updates(body: Record): Record
  {
    body - {"userId", "id", "createdAt"}
  }

  /** `{ ...list[index], ...updates }` keeps the record's id, owner and
      creation time, takes every other field the body has, and keeps the
      fields the body lacks. */
  lemma MergeKeepsStamps(rec: Record, body: Record)
    ensures var merged := rec + Updates(body);
      Get(merged, "id") == Get(rec, "id") &&
      Get(merged, "userId") == Get(rec, "userId") &&
      Get(merged, "createdAt") == Get(rec, "createdAt")
    ensures var merged := rec + Updates(body);
      forall k :: k !in {"id", "userId", "createdAt"} ==>
        Get(merged, k) == if k in body then body[k] else Get(rec, k)
  {
  }

  /** `list.findIndex(item => item.id === req.params.id && item.userId === req.userId)`. */
  function FindTarget(list: seq<Record>, id: string, userId: Value): Option<nat>
  {
    Seqs.FindIndex(list, TargetTest(id, userId))
  }

  /** `list.filter(item => !(item.id === id && item.userId === req.userId))`. */
  function Remaining(list: seq<Record>, id: string, userId: Value): seq<Record>
  {
    Seqs.Filter(list, KeepTest(id, userId))
  }

  /** Delete keeps every record it does not address, in order, and removes
      every record it does; it reports success exactly when there was one. */
  lemma RemainingExactly(list: seq<Record>, id: string, userId: Value)
    ensures forall r :: r in Remaining(list, id, userId) <==> r in list && !Targets(r, id, userId)
    ensures Seqs.IsSubsequence(Remaining(list, id, userId), list)
    ensures |Remaining(list, id, userId)| != |list| <==> exists i :: 0 <= i < |list| && Targets(list[i], id, userId)
    ensures |Remaining(list, id, userId)| != |list| <==> FindTarget(list, id, userId).Some?
  {
    Seqs.FilterIsSubsequence(list, KeepTest(id, userId));
    Seqs.FilterKeepsAll(list, KeepTest(id, userId));
  }

  /** Deleting twice: the second delete finds nothing and answers 404. */
  lemma DeleteTwice(list: seq<Record>, id: string, userId: Value)
    ensures var kept := Remaining(list, id, userId);
      Remaining(kept, id, userId) == kept && FindTarget(kept, id, userId).None?
  {
    Seqs.FilterIdempotent(list, KeepTest(id, userId));
    RemainingExactly(Remaining(list, id, userId), id, userId);
  }

  /** Tenant isolation of delete: another owner's records are untouched. */
  lemma DeleteIsolation(list: seq<Record>, id: string, userId: Value, other: Value)
    requires other != userId
    ensures OwnedBy(Remaining(list, id, userId), other) == OwnedBy(list, other)
  {
    Seqs.FilterOfFilter(list, KeepTest(id, userId), OwnedTest(other));
  }

  /** Tenant isolation of update: the changed record stays the caller's, so
      another owner's records are untouched. */
  lemma UpdateIsolation(list: seq<Record>, i: nat, body: Record, userId: Value, other: Value)
    requires i < |list| && Owned(list[i], userId) && other != userId
    ensures OwnedBy(list[i := list[i] + Updates(body)], other) == OwnedBy(list, other)
  {
    MergeKeepsStamps(list[i], body);
    Seqs.FilterUpdateDropped(list, i, list[i] + Updates(body), OwnedTest(other));
  }

  /** The answer to `PUT` on a record. */
  datatype Reply = Found(record: Record) | NotFound

  // ----------------------------------------------------------------- profile

  function IdTest(userId: Value): Record -> bool
  {
    (u: Record) => Get(u, "id") == userId
  }

  /** The caller's user record: `users.find`/`findIndex(u => u.id === req.userId)`. */
  function UserIndex(users: seq<Record>, userId: Value): Option<nat>
  {
    Seqs.FindIndex(users, IdTest(userId))
  }

  /** `const { password: _, ...userWithoutPassword } = user`. */
  function PublicView(user: Record): (view: Record)
    ensures "password" !in view
    ensures forall k :: k != "password" ==> Get(view, k) == Get(user, k)
  {
    user - {"password"}
  }

  /** `const { password, id, ...updates } = req.body`. */
  function ProfileUpdates(body: Record): Record
  {
    body - {"password", "id"}
  }

  /** A profile update keeps the user's id and stored password, and takes
      every other field the body has. */
  lemma ProfileMerge(user: Record, body: Record)
    ensures var merged := user + ProfileUpdates(body);
      Get(merged, "id") == Get(user, "id") && Get(merged, "password") == Get(user, "password") &&
      forall k :: k != "id" && k != "password" ==> Get(merged, k) == if k in body then body[k] else Get(user, k)
  {
  }

  // ------------------------------------------------------------------ server

  class Server {
    /** The content of `db.json`. */
    var disk: Disk
    /** How many times the file has been rewritten. */
    var writes: nat

    constructor (initial: Disk)
      ensures disk == initial && writes == 0
    {
      disk := initial;
      writes := 0;
    }

    /** `writeDB`: replace the file's content. */
    method WriteDB(db: Document)
      modifies this
      ensures disk == Parsed(db) && writes == old(writes) + 1
    {
      disk := Parsed(db);
      writes := writes + 1;
    }

    /** `readDB`: parse the file, add the missing collections and rewrite the
        file only if one was missing; unparseable content gives `INITIAL_DATA`
        and leaves the file alone. */
    method ReadDB() returns (db: Document)
      modifies this
      ensures db == Loaded(old(disk)) && Complete(db)
      ensures disk == AfterRead(old(disk))
      ensures writes == old(writes) + ReadWrites(old(disk))
    {
      match disk {
        case Unparseable =>
          db := InitialData;
        case Parsed(parsed) =>
          var needsSave;
          db, needsSave := WidenSchema(parsed);
          if needsSave {
            WriteDB(db);
          }
      }
    }

    /** The `authenticate` middleware. */
    method Authenticate(header: Option<string>, now: int) returns (userId: Value)
      modifies this
      ensures var db := Loaded(old(disk)); var token := BearerToken(header);
        userId == Caller(db, token, now) &&
        disk == (if AuthWrites(db, token, now) == 0 then AfterRead(old(disk)) else Parsed(AfterAuth(db, token, now))) &&
        writes == old(writes) + ReadWrites(old(disk)) + AuthWrites(db, token, now)
    {
      var db := ReadDB();
      ghost var db0 := db;
      var token := BearerToken(header);
      var session: Option<Record> := None;
      assert "sessions" == Collections[1] && "users" == Collections[0];
      if token.Some? {
        var active := LiveSessions(db["sessions"], now);
        if |active| != |db["sessions"]| {
          db := db["sessions" := active];
          WriteDB(db);
        }
        session := Seqs.FindFirst(active, TokenTest(token.value));
      }
      assert session == SessionFor(db0, token, now);
      if session.Some? {
        userId := Get(session.value, "userId");
      } else {
        userId := Str(DemoUserId);
        if !HasDemoUser(db["users"]) {
          db := db["users" := db["users"] + [DemoUser]];
          WriteDB(db);
        }
      }
    }

    /** `getAll`. */
    method GetAll(name: string, userId: Value) returns (items: seq<Record>)
      modifies this
      ensures items == OwnedBy(Collection(Loaded(old(disk)), name), userId)
      ensures disk == AfterRead(old(disk)) && writes == old(writes) + ReadWrites(old(disk))
    {
      var db := ReadDB();
      var list := Collection(db, name);
      items := OwnedBy(list, userId);
    }

    /** `create`: append the new record at the end of its collection. */
    method Create(name: string, userId: Value, body: Record, id: string, createdAt: string) returns (item: Record)
      modifies this
      ensures item == NewItem(id, createdAt, userId, body)
      ensures var db := Loaded(old(disk));
        disk == Parsed(db[name := Collection(db, name) + [item]])
      ensures writes == old(writes) + ReadWrites(old(disk)) + 1
    {
      var db := ReadDB();
      item := NewItem(id, createdAt, userId, body);
      db := db[name := Collection(db, name) + [item]];
      WriteDB(db);
    }

    /** `update`: merge the body onto the caller's record with that id, or
        answer 404 and write nothing. */
    method Update(name: string, userId: Value, id: string, body: Record) returns (reply: Reply)
      modifies this
      ensures var db := Loaded(old(disk)); var list := Collection(db, name);
        match FindTarget(list, id, userId)
        case None =>
          reply == NotFound && disk == AfterRead(old(disk)) && writes == old(writes) + ReadWrites(old(disk))
        case Some(i) =>
          reply == Found(list[i] + Updates(body)) &&
          disk == Parsed(db[name := list[i := list[i] + Updates(body)]]) &&
          writes == old(writes) + ReadWrites(old(disk)) + 1
    {
      var db := ReadDB();
      var list := Collection(db, name);
      var index := FindTarget(list, id, userId);
      if index.None? {
        return NotFound;
      }
      var i := index.value;
      list := list[i := list[i] + Updates(body)];
      db := db[name := list];
      WriteDB(db);
      reply := Found(list[i]);
    }

    /** `delete`: remove every record of the caller with that id, or answer
        404 and write nothing. */
    method Delete(name: string, userId: Value, id: string) returns (deleted: bool)
      modifies this
      ensures var db := Loaded(old(disk)); var list := Collection(db, name);
        var kept := Remaining(list, id, userId);
        (deleted <==> |kept| != |list|) &&
        (deleted ==> disk == Parsed(db[name := kept]) && writes == old(writes) + ReadWrites(old(disk)) + 1) &&
        (!deleted ==> disk == AfterRead(old(disk)) && writes == old(writes) + ReadWrites(old(disk)))
    {
      var db := ReadDB();
      var list := Collection(db, name);
      var kept := Remaining(list, id, userId);
      if |list| == |kept| {
        return false;
      }
      db := db[name := kept];
      WriteDB(db);
      deleted := true;
    }

    /** `GET /api/user`: the caller's record without its password, or the
        demo profile when the caller has no record. */
    method GetUser(userId: Value) returns (profile: Record)
      modifies this
      ensures "password" !in profile
      ensures var users := Loaded(old(disk))["users"];
        match UserIndex(users, userId)
        case None => profile == DemoUser
        case Some(i) => profile == PublicView(users[i])
      ensures disk == AfterRead(old(disk)) && writes == old(writes) + ReadWrites(old(disk))
    {
      var db := ReadDB();
      assert "users" == Collections[0];
      var users := db["users"];
      match UserIndex(users, userId) {
        case None =>
          profile := DemoUser;
        case Some(i) =>
          profile := PublicView(users[i]);
      }
    }

    /** `PUT /api/user`: merge the body, less `password` and `id`, onto the
        caller's record and answer it without its password; a caller without
        a record gets the body back and nothing is written. */
    method PutUser(userId: Value, body: Record) returns (response: Record)
      modifies this
      ensures var db := Loaded(old(disk)); var users := db["users"];
        match UserIndex(users, userId)
        case None =>
          response == body && disk == AfterRead(old(disk)) && writes == old(writes) + ReadWrites(old(disk))
        case Some(i) =>
          response == PublicView(users[i] + ProfileUpdates(body)) &&
          disk == Parsed(db["users" := users[i := users[i] + ProfileUpdates(body)]]) &&
          writes == old(writes) + ReadWrites(old(disk)) + 1
    {
      var db := ReadDB();
      assert "users" == Collections[0];
      var users := db["users"];
      var index := UserIndex(users, userId);
      if index.None? {
        return body;
      }
      var i := index.value;
      users := users[i := users[i] + ProfileUpdates(body)];
      db := db["users" := users];
      WriteDB(db);
      response := PublicView(users[i]);
    }
  }
}

/**
  The stored rows and the read-only queries the views run against them.
  The ORM is an in-memory table: a sequence of rows in storage order.
 */
module Tables {
  import opened Wrappers
  import opened Decimal

  /** A request field: form fields arrive as text; the views themselves put in ints (the caller's pk, the -1 default). */
  datatype Value = Str(s: string) | Int(i: int)

  type RequestData = map<string, Value>

  /** A serializer's field errors. */
  type Errors = map<string, seq<string>>

  /** Python's int() of a field. */
  function IntOf(v: Value): (r: Option<int>)
    ensures v.Int? ==> r == Some(v.i)
    ensures v.Str? ==> r == ParseInteger(v.s)
  {
    match v
    case Int(i) => Some(i)
    case Str(s) => ParseInteger(s)
  }

  /** The text a character column compares a field as (str() of it); int() of it gives an int field back. */
  function TextOf(v: Value): (t: string)
    ensures v.Str? ==> t == v.s
    ensures v.Int? ==> ParseInteger(t) == Some(v.i)
  {
    match v
    case Str(s) => s
    case Int(i) => ParseShow(i); Show(i)
  }

  /** int() of a field is int() of its text: an int field reads back from str() of it. */
  lemma IntOfText(v: Value)
    ensures IntOf(v) == ParseInteger(TextOf(v))
  {
    if v.Int? {
      ParseShow(v.i);
    }
  }

  /** An account; `password` stands for the stored hash, read only by the password check passed in. */
  datatype User = User(id: nat, username: string, email: string, password: string)

  datatype ScoreRow = ScoreRow(id: nat, user: nat, score: int, owner: nat, extra: map<string, Value>)

  datatype SavegameRow = SavegameRow(id: nat, owner: nat, savegameType: string, extra: map<string, Value>)

  /** An authentication token; the table holds at most one per user. */
  datatype TokenRow = TokenRow(key: string, user: nat)

  function ScoreId(r: ScoreRow): nat { r.id }
  function SavegameId(r: SavegameRow): nat { r.id }
  function UserId(u: User): nat { u.id }

  /** No two rows share a primary key. */
  predicate KeysUnique<T>(rows: seq<T>, key: T -> nat) {
    forall i, j :: 0 <= i < j < |rows| ==> key(rows[i]) != key(rows[j])
  }

  /** Every primary key is below the next one the table will hand out. */
  predicate KeysBelow<T>(rows: seq<T>, key: T -> nat, bound: nat) {
    forall i :: 0 <= i < |rows| ==> key(rows[i]) < bound
  }

  /** Saving an existing instance: the row with that primary key is replaced, every other row is left as it is. */
  function ReplaceByKey<T>(rows: seq<T>, key: T -> nat, row: T): (out: seq<T>)
    ensures |out| == |rows|
    ensures forall i :: 0 <= i < |rows| ==> out[i] == if key(rows[i]) == key(row) then row else rows[i]
  {
    if rows == [] then [] else [if key(rows[0]) == key(row) then row else rows[0]] + ReplaceByKey(rows[1..], key, row)
  }

  // ---- scores ----

  /** Score.objects.filter(user=pk, score=score), in storage order. */
  function ScoresOf(rows: seq<ScoreRow>, pk: int, score: int): (ms: seq<ScoreRow>)
    ensures |ms| <= |rows|
    ensures forall r :: r in ms <==> r in rows && r.user == pk && r.score == score
    ensures forall r :: multiset(ms)[r] == if r.user == pk && r.score == score then multiset(rows)[r] else 0
  {
    if rows == [] then []
    else
      var rest := ScoresOf(rows[1..], pk, score);
      assert rows == [rows[0]] + rows[1..];
      if rows[0].user == pk && rows[0].score == score then [rows[0]] + rest else rest
  }

  /** Score.objects.get(user=pk, score=score): the one matching row; no match and several matches both raise. */
  function UniqueScore(rows: seq<ScoreRow>, pk: int, score: int): (r: Option<ScoreRow>)
    ensures r.Some? <==> |ScoresOf(rows, pk, score)| == 1
    ensures r.Some? ==> r.value in rows && r.value.user == pk && r.value.score == score
    ensures r.Some? ==> forall x :: x in rows && x.user == pk && x.score == score ==> x == r.value
  {
    var ms := ScoresOf(rows, pk, score);
    if |ms| == 1 then
      assert ms[0] in ms;
      Some(ms[0])
    else None
  }

  /**
    ScoreAPI.get_object(pk, score): the user and score converted with int()
    (score first, as the source does), then the unique row; every exception
    becomes None.
   */
  function ScoreGetObject(rows: seq<ScoreRow>, pk: Value, score: Value): (r: Option<ScoreRow>)
    ensures IntOf(score).None? || IntOf(pk).None? ==> r.None?
    ensures IntOf(score).Some? && IntOf(pk).Some? ==> r == UniqueScore(rows, IntOf(pk).value, IntOf(score).value)
  {
    match IntOf(score)
    case None => None
    case Some(s) =>
      match IntOf(pk)
      case None => None
      case Some(p) => UniqueScore(rows, p, s)
  }

  // ---- savegames ----

  /** Savegame.objects.filter(owner=user): the rows of that owner, each as often as stored, in storage order. */
  function SavegamesOwnedBy(rows: seq<SavegameRow>, owner: nat): (out: seq<SavegameRow>)
    ensures |out| <= |rows|
    ensures forall r :: multiset(out)[r] == if r.owner == owner then multiset(rows)[r] else 0
  {
    if rows == [] then []
    else
      var rest := SavegamesOwnedBy(rows[1..], owner);
      assert rows == [rows[0]] + rows[1..];
      if rows[0].owner == owner then [rows[0]] + rest else rest
  }

  /** .filter(type=t) of a list of savegames. */
  function SavegamesOfType(rows: seq<SavegameRow>, t: string): (out: seq<SavegameRow>)
    ensures |out| <= |rows|
    ensures forall r :: multiset(out)[r] == if r.savegameType == t then multiset(rows)[r] else 0
  {
    if rows == [] then []
    else
      var rest := SavegamesOfType(rows[1..], t);
      assert rows == [rows[0]] + rows[1..];
      if rows[0].savegameType == t then [rows[0]] + rest else rest
  }

  /** SavegameAPI.get_queryset: exactly the caller's savegames. */
  function SavegameQueryset(rows: seq<SavegameRow>, caller: nat): (out: seq<SavegameRow>)
    ensures forall r :: r in out <==> r in rows && r.owner == caller
    ensures forall r :: multiset(out)[r] == if r.owner == caller then multiset(rows)[r] else 0
  {
    var out := SavegamesOwnedBy(rows, caller);
    assert forall r :: r in out <==> multiset(out)[r] > 0;
    out
  }

  /**
    SavegameListAPI.get_queryset: nothing at all without a SavegameType
    field, otherwise exactly the caller's savegames of that type.
   */
  function SavegameListQueryset(rows: seq<SavegameRow>, caller: nat, data: RequestData): (out: seq<SavegameRow>)
    ensures "SavegameType" !in data ==> out == []
    ensures "SavegameType" in data ==>
      forall r :: multiset(out)[r] ==
        if r.owner == caller && r.savegameType == TextOf(data["SavegameType"]) then multiset(rows)[r] else 0
  {
    if "SavegameType" !in data then []
    else SavegamesOfType(SavegamesOwnedBy(rows, caller), TextOf(data["SavegameType"]))
  }

  /** Savegame.objects.filter(pk=id). */
  function SavegamesWithId(rows: seq<SavegameRow>, id: int): (ms: seq<SavegameRow>)
    ensures |ms| <= |rows|
    ensures forall r :: r in ms <==> r in rows && r.id == id
    ensures forall r :: multiset(ms)[r] == if r.id == id then multiset(rows)[r] else 0
  {
    if rows == [] then []
    else
      var rest := SavegamesWithId(rows[1..], id);
      assert rows == [rows[0]] + rows[1..];
      if rows[0].id == id then [rows[0]] + rest else rest
  }

  /**
    SavegameAPI.get_object: the row whose primary key is the request's id,
    whoever owns it; None when the field is missing, is not an integer, or
    names no single row.
   */
  function SavegameGetObject(rows: seq<SavegameRow>, data: RequestData): (r: Option<SavegameRow>)
    ensures r.Some? <==>
      "id" in data && IntOf(data["id"]).Some? && |SavegamesWithId(rows, IntOf(data["id"]).value)| == 1
    ensures r.Some? ==> r.value in rows && Some(r.value.id as int) == IntOf(data["id"])
  {
    if "id" !in data then None
    else
      match IntOf(data["id"])
      case None => None
      case Some(id) =>
        var ms := SavegamesWithId(rows, id);
        if |ms| == 1 then
          assert ms[0] in ms;
          Some(ms[0])
        else None
  }

  // ---- users and tokens ----

  /** User.objects.filter(username=..., email=...). */
  function UsersNamed(users: seq<User>, username: string, email: string): (ms: seq<User>)
    ensures |ms| <= |users|
    ensures forall u :: u in ms <==> u in users && u.username == username && u.email == email
    ensures forall u :: multiset(ms)[u] == if u.username == username && u.email == email then multiset(users)[u] else 0
  {
    if users == [] then []
    else
      var rest := UsersNamed(users[1..], username, email);
      assert users == [users[0]] + users[1..];
      if users[0].username == username && users[0].email == email then [users[0]] + rest else rest
  }

  /**
    The account DeleteUser.post removes: the single user with the given
    username and email whose password checks; None when a field is missing,
    no single user matches, or the password is wrong.
   */
  function DeleteUserTarget(users: seq<User>, data: RequestData, checkPassword: (User, string) -> bool): (r: Option<User>)
    ensures r.Some? <==>
      && "username" in data && "email" in data
      && |UsersNamed(users, TextOf(data["username"]), TextOf(data["email"]))| == 1
      && "password" in data
      && checkPassword(UsersNamed(users, TextOf(data["username"]), TextOf(data["email"]))[0], TextOf(data["password"]))
    ensures r.Some? ==>
      && r.value in users
      && r.value.username == TextOf(data["username"]) && r.value.email == TextOf(data["email"])
      && checkPassword(r.value, TextOf(data["password"]))
  {
    if "username" !in data || "email" !in data then None
    else
      var ms := UsersNamed(users, TextOf(data["username"]), TextOf(data["email"]));
      if |ms| != 1 then None
      else if "password" !in data then None
      else if !checkPassword(ms[0], TextOf(data["password"])) then None
      else
        assert ms[0] in ms;
        Some(ms[0])
  }

  /** Token.objects.get(user=user), as the first row for that user. */
  function TokenFor(tokens: seq<TokenRow>, user: nat): (r: Option<TokenRow>)
    ensures r.Some? <==> exists t :: t in tokens && t.user == user
    ensures r.Some? ==> r.value in tokens && r.value.user == user
  {
    if tokens == [] then None
    else if tokens[0].user == user then Some(tokens[0])
    else TokenFor(tokens[1..], user)
  }

  /** At most one token per user, and no key used twice. */
  predicate TokensWellFormed(tokens: seq<TokenRow>) {
    forall i, j :: 0 <= i < j < |tokens| ==> tokens[i].user != tokens[j].user && tokens[i].key != tokens[j].key
  }
}

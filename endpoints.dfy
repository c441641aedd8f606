/**
  The views of the API as steps over the tables. Each view's decision is a
  function from the tables before the request to the tables after it and
  the response; the Database class at the end performs the same steps in
  place.
 */
module Endpoints {
  import opened Wrappers
  import opened Tables
  import Decimal
  import UnityApiView

  const HTTP_200_OK: int := 200
  const HTTP_201_CREATED: int := 201
  const HTTP_204_NO_CONTENT: int := 204
  const HTTP_400_BAD_REQUEST: int := 400

  const UnknownUserMessage: string := "Could not find that user"

  /** What a view puts in its Response. */
  datatype Body =
    | ScoreBody(score: ScoreRow)
    | ScoreList(scores: seq<ScoreRow>)
    | SavegameBody(savegame: SavegameRow)
    | SavegameList(savegames: seq<SavegameRow>)
    | FieldErrors(errors: Errors)
    | Message(text: string)
    | TokenBody(token: string)
    | NoBody

  datatype ApiResponse = ApiResponse(status: int, body: Body)

  /** The columns a score serializer hands to save(). */
  datatype ScoreFields = ScoreFields(user: nat, score: int, extra: map<string, Value>)

  /** The columns a savegame serializer hands to save(). */
  datatype SavegameFields = SavegameFields(savegameType: string, extra: map<string, Value>)

  /** A serializer's is_valid(): given the instance (if any) and the request data, the validated columns or the errors. */
  type ScoreValidator = (Option<ScoreRow>, RequestData) -> Result<ScoreFields, Errors>
  type SavegameValidator = (Option<SavegameRow>, RequestData) -> Result<SavegameFields, Errors>

  // ---- ScoreAPI ----

  /** `data['user'] = request.user.pk`: whatever the client sent as user is replaced by the caller. */
  function ForceUser(data: RequestData, caller: nat): (d: RequestData)
    ensures d.Keys == data.Keys + {"user"}
    ensures d["user"] == Int(caller)
    ensures forall k :: k in data && k != "user" ==> d[k] == data[k]
  {
    data["user" := Int(caller)]
  }

  /** The score get_object receives: the field, or -1 when the request has none. */
  function ScoreArgument(data: RequestData): (v: Value)
    ensures "score" !in data ==> v == Int(-1)
    ensures "score" in data ==> v == data["score"]
  {
    if "score" in data then data["score"] else Int(-1)
  }

  /** save(owner=...) on the looked-up row: its key stays, the validated columns replace the old ones. */
  function UpdatedScore(row: ScoreRow, f: ScoreFields, owner: nat): ScoreRow {
    ScoreRow(row.id, f.user, f.score, owner, row.extra + f.extra)
  }

  /** save(owner=...) without an instance: a new row with the next key. */
  function NewScore(id: nat, f: ScoreFields, owner: nat): ScoreRow {
    ScoreRow(id, f.user, f.score, owner, f.extra)
  }

  datatype ScorePostOutcome = ScorePostOutcome(rows: seq<ScoreRow>, nextId: nat, response: ApiResponse)

  /** The row ScoreAPI.post looks up for the caller. */
  function ScorePostLookup(rows: seq<ScoreRow>, caller: nat, data: RequestData): (r: Option<ScoreRow>)
    ensures r.Some? ==> r.value in rows && r.value.user == caller
    ensures r == ScoreGetObject(rows, Int(caller), ScoreArgument(data))
  {
    var d := ForceUser(data, caller);
    ScoreGetObject(rows, d["user"], ScoreArgument(d))
  }

  /**
    ScoreAPI.post: the caller's row with that score is updated if there is
    exactly one, otherwise a new row is created; valid data is saved with
    the caller as owner and answered with 201, invalid data with 400 and
    the errors, saving nothing.
   */
  function ScorePost(rows: seq<ScoreRow>, nextId: nat, caller: nat, data: RequestData, validate: ScoreValidator)
    : (o: ScorePostOutcome)
    ensures var v := validate(ScorePostLookup(rows, caller, data), ForceUser(data, caller));
      v.Err? ==> o == ScorePostOutcome(rows, nextId, ApiResponse(HTTP_400_BAD_REQUEST, FieldErrors(v.error)))
    ensures var v := validate(ScorePostLookup(rows, caller, data), ForceUser(data, caller));
      v.Ok? ==>
        && o.response.status == HTTP_201_CREATED && o.response.body.ScoreBody?
        && o.response.body.score.owner == caller
        && o.response.body.score.user == v.value.user && o.response.body.score.score == v.value.score
        && o.response.body.score in o.rows
    ensures var found := ScorePostLookup(rows, caller, data);
      var v := validate(found, ForceUser(data, caller));
      v.Ok? ==>
        o.response.body.score.extra == (if found.Some? then found.value.extra + v.value.extra else v.value.extra)
    ensures var found := ScorePostLookup(rows, caller, data);
      var v := validate(found, ForceUser(data, caller));
      v.Ok? && found.Some? ==>
        && o.response.body.score.id == found.value.id && o.nextId == nextId
        && o.rows == ReplaceByKey(rows, ScoreId, o.response.body.score)
    ensures var found := ScorePostLookup(rows, caller, data);
      var v := validate(found, ForceUser(data, caller));
      v.Ok? && found.None? ==>
        && o.response.body.score.id == nextId && o.nextId == nextId + 1
        && o.rows == rows + [o.response.body.score]
  {
    var d := ForceUser(data, caller);
    var found := ScorePostLookup(rows, caller, data);
    match validate(found, d)
    case Err(e) => ScorePostOutcome(rows, nextId, ApiResponse(HTTP_400_BAD_REQUEST, FieldErrors(e)))
    case Ok(f) =>
      if found.Some? then
        var saved := UpdatedScore(found.value, f, caller);
        assert saved in ReplaceByKey(rows, ScoreId, saved) by {
          var i :| 0 <= i < |rows| && rows[i] == found.value;
          assert ReplaceByKey(rows, ScoreId, saved)[i] == saved;
        }
        ScorePostOutcome(ReplaceByKey(rows, ScoreId, saved), nextId, ApiResponse(HTTP_201_CREATED, ScoreBody(saved)))
      else
        var saved := NewScore(nextId, f, caller);
        ScorePostOutcome(rows + [saved], nextId + 1, ApiResponse(HTTP_201_CREATED, ScoreBody(saved)))
  }

  /** The user field a client sends has no effect on a score POST. */
  lemma ScorePostIgnoresClientUser(rows: seq<ScoreRow>, nextId: nat, caller: nat, data: RequestData, claimed: Value,
                                   validate: ScoreValidator)
    ensures ScorePost(rows, nextId, caller, data["user" := claimed], validate) == ScorePost(rows, nextId, caller, data, validate)
  {
    assert ForceUser(data["user" := claimed], caller) == ForceUser(data, caller);
  }

  /** Without a score field the lookup asks for score -1 and so finds nothing unless the caller stored a -1. */
  lemma MissingScoreUsesSentinel(rows: seq<ScoreRow>, caller: nat, data: RequestData)
    requires "score" !in data
    ensures ScorePostLookup(rows, caller, data) == UniqueScore(rows, caller, -1)
    ensures (forall r :: r in rows && r.user == caller ==> r.score != -1) ==> ScorePostLookup(rows, caller, data).None?
  {
    if ScorePostLookup(rows, caller, data).Some? {
      assert ScorePostLookup(rows, caller, data).value.score == -1;
    }
  }

  /** A score that int() refuses finds no row, so the POST becomes a create. */
  lemma UnparsableScoreCreates(rows: seq<ScoreRow>, nextId: nat, caller: nat, data: RequestData, validate: ScoreValidator)
    requires "score" in data && IntOf(data["score"]).None?
    ensures var o := ScorePost(rows, nextId, caller, data, validate);
      o.response.status == HTTP_201_CREATED ==> |o.rows| == |rows| + 1 && o.response.body.score.id == nextId
  {
  }

  /**
    On this request the serializer validates to the caller as user and to
    score k, whichever instance it is given.
   */
  ghost predicate SavesScoreKey(validate: ScoreValidator, d: RequestData, caller: nat, k: int) {
    forall found :: validate(found, d).Ok? ==> validate(found, d).value.user == caller && validate(found, d).value.score == k
  }

  /** Replacing a matching row by another matching row leaves the number of matches as it was. */
  lemma {:induction false} ReplaceKeepsMatches(rows: seq<ScoreRow>, row: ScoreRow, pk: int, k: int)
    requires row.user == pk && row.score == k
    requires forall x :: x in rows && x.id == row.id ==> x.user == pk && x.score == k
    ensures |ScoresOf(ReplaceByKey(rows, ScoreId, row), pk, k)| == |ScoresOf(rows, pk, k)|
  {
    if rows != [] {
      ReplaceKeepsMatches(rows[1..], row, pk, k);
      assert ReplaceByKey(rows, ScoreId, row)[1..] == ReplaceByKey(rows[1..], ScoreId, row);
    }
  }

  /** An appended row is one more match exactly when it matches. */
  lemma {:induction false} AppendMatches(rows: seq<ScoreRow>, row: ScoreRow, pk: int, k: int)
    ensures |ScoresOf(rows + [row], pk, k)| == |ScoresOf(rows, pk, k)| + (if row.user == pk && row.score == k then 1 else 0)
  {
    if rows == [] {
      assert rows + [row] == [row];
    } else {
      assert (rows + [row])[1..] == rows[1..] + [row];
      AppendMatches(rows[1..], row, pk, k);
    }
  }

  /** Replacing a row by one with the same key keeps the keys unique. */
  lemma ReplaceKeepsKeys(rows: seq<ScoreRow>, row: ScoreRow, bound: nat)
    requires KeysUnique(rows, ScoreId) && KeysBelow(rows, ScoreId, bound)
    requires exists i :: 0 <= i < |rows| && rows[i].id == row.id
    ensures var out := ReplaceByKey(rows, ScoreId, row);
      KeysUnique(out, ScoreId) && KeysBelow(out, ScoreId, bound)
  {
    var out := ReplaceByKey(rows, ScoreId, row);
    assert forall i :: 0 <= i < |rows| ==> ScoreId(out[i]) == ScoreId(rows[i]);
  }

  /** A score POST that found the caller's row: only that row changes, and it still is the caller's one match. */
  lemma ScorePostUpdateCase(rows: seq<ScoreRow>, nextId: nat, caller: nat, data: RequestData,
                            validate: ScoreValidator, k: int)
    requires KeysUnique(rows, ScoreId) && KeysBelow(rows, ScoreId, nextId)
    requires SavesScoreKey(validate, ForceUser(data, caller), caller, k)
    requires "score" in data && IntOf(data["score"]) == Some(k)
    requires ScorePostLookup(rows, caller, data).Some?
    ensures var o := ScorePost(rows, nextId, caller, data, validate);
      o.response.status == HTTP_201_CREATED ==>
        && |ScoresOf(o.rows, caller, k)| == |ScoresOf(rows, caller, k)| == 1
        && o.response.body.score in o.rows
        && o.response.body.score.user == caller && o.response.body.score.score == k
        && |o.rows| == |rows| && o.nextId == nextId
        && o.response.body.score.id == ScorePostLookup(rows, caller, data).value.id
        && KeysUnique(o.rows, ScoreId) && KeysBelow(o.rows, ScoreId, o.nextId)
  {
    var o := ScorePost(rows, nextId, caller, data, validate);
    var found := ScorePostLookup(rows, caller, data).value;
    if o.response.status == HTTP_201_CREATED {
      var f := validate(Some(found), ForceUser(data, caller)).value;
      assert f.user == caller && f.score == k;
      var saved := o.response.body.score;
      var j :| 0 <= j < |rows| && rows[j] == found;
      forall x | x in rows && x.id == saved.id ensures x.user == caller && x.score == k {
        var i :| 0 <= i < |rows| && rows[i] == x;
        assert i == j;
      }
      ReplaceKeepsMatches(rows, saved, caller, k);
      ReplaceKeepsKeys(rows, saved, nextId);
    }
  }

  /** A score POST that found no row of the caller's (none existed): the saved row is appended, with a new key. */
  lemma ScorePostCreateCase(rows: seq<ScoreRow>, nextId: nat, caller: nat, data: RequestData,
                            validate: ScoreValidator, k: int)
    requires KeysUnique(rows, ScoreId) && KeysBelow(rows, ScoreId, nextId)
    requires SavesScoreKey(validate, ForceUser(data, caller), caller, k)
    requires "score" in data && IntOf(data["score"]) == Some(k)
    requires |ScoresOf(rows, caller, k)| == 0
    ensures var o := ScorePost(rows, nextId, caller, data, validate);
      o.response.status == HTTP_201_CREATED ==>
        && |ScoresOf(o.rows, caller, k)| == 1
        && o.response.body.score in o.rows
        && o.response.body.score.user == caller && o.response.body.score.score == k
        && KeysUnique(o.rows, ScoreId) && KeysBelow(o.rows, ScoreId, o.nextId)
  {
    var o := ScorePost(rows, nextId, caller, data, validate);
    assert ScorePostLookup(rows, caller, data).None?;
    if o.response.status == HTTP_201_CREATED {
      var f := validate(None, ForceUser(data, caller)).value;
      assert f.user == caller && f.score == k;
      var saved := o.response.body.score;
      AppendMatches(rows, saved, caller, k);
      assert KeysUnique(o.rows, ScoreId) by {
        forall i, j | 0 <= i < j < |o.rows| ensures ScoreId(o.rows[i]) != ScoreId(o.rows[j]) {
          if j == |rows| {
            assert ScoreId(o.rows[i]) == ScoreId(rows[i]) < nextId;
          }
        }
      }
    }
  }

  /** When exactly one row matches, a matching stored row is that one. */
  lemma OnlyMatch(rows: seq<ScoreRow>, pk: int, k: int, row: ScoreRow)
    requires |ScoresOf(rows, pk, k)| == 1
    requires row in rows && row.user == pk && row.score == k
    ensures ScoresOf(rows, pk, k)[0] == row
  {
    var ms := ScoresOf(rows, pk, k);
    assert row in ms && ms[0] in ms;
  }

  /**
    One score POST by a caller who has at most one row with score k: once
    it saves, the caller has exactly one such row, the saved one; if there
    was one before, it was that row that changed and no row was added.
   */
  lemma ScorePostKeepsOneMatch(rows: seq<ScoreRow>, nextId: nat, caller: nat, data: RequestData,
                               validate: ScoreValidator, k: int)
    requires KeysUnique(rows, ScoreId) && KeysBelow(rows, ScoreId, nextId)
    requires SavesScoreKey(validate, ForceUser(data, caller), caller, k)
    requires "score" in data && IntOf(data["score"]) == Some(k)
    requires |ScoresOf(rows, caller, k)| <= 1
    ensures var o := ScorePost(rows, nextId, caller, data, validate);
      o.response.status == HTTP_201_CREATED ==>
        && |ScoresOf(o.rows, caller, k)| == 1 && ScoresOf(o.rows, caller, k)[0] == o.response.body.score
        && KeysUnique(o.rows, ScoreId) && KeysBelow(o.rows, ScoreId, o.nextId)
    ensures var o := ScorePost(rows, nextId, caller, data, validate);
      o.response.status == HTTP_201_CREATED && |ScoresOf(rows, caller, k)| == 1 ==>
        && |o.rows| == |rows| && o.nextId == nextId
        && o.response.body.score.id == ScoresOf(rows, caller, k)[0].id
  {
    var o := ScorePost(rows, nextId, caller, data, validate);
    assert ScorePostLookup(rows, caller, data) == UniqueScore(rows, caller, k);
    if |ScoresOf(rows, caller, k)| == 1 {
      ScorePostUpdateCase(rows, nextId, caller, data, validate, k);
      OnlyMatch(rows, caller, k, ScorePostLookup(rows, caller, data).value);
    } else {
      ScorePostCreateCase(rows, nextId, caller, data, validate, k);
    }
    if o.response.status == HTTP_201_CREATED {
      OnlyMatch(o.rows, caller, k, o.response.body.score);
    }
  }

  /**
    Posting the same score twice as the same caller: once the first POST has
    saved, the second updates that row instead of adding another, and the
    caller has exactly one row with that score.
   */
  lemma ScorePostTwiceUpdates(rows: seq<ScoreRow>, nextId: nat, caller: nat, data1: RequestData, data2: RequestData,
                              validate: ScoreValidator, k: int)
    requires KeysUnique(rows, ScoreId) && KeysBelow(rows, ScoreId, nextId)
    requires SavesScoreKey(validate, ForceUser(data1, caller), caller, k)
    requires SavesScoreKey(validate, ForceUser(data2, caller), caller, k)
    requires "score" in data1 && IntOf(data1["score"]) == Some(k)
    requires "score" in data2 && IntOf(data2["score"]) == Some(k)
    requires |ScoresOf(rows, caller, k)| <= 1
    ensures var o1 := ScorePost(rows, nextId, caller, data1, validate);
      var o2 := ScorePost(o1.rows, o1.nextId, caller, data2, validate);
      o1.response.status == HTTP_201_CREATED && o2.response.status == HTTP_201_CREATED ==>
        && |o2.rows| == |o1.rows| && o2.nextId == o1.nextId
        && o2.response.body.score.id == o1.response.body.score.id
        && |ScoresOf(o2.rows, caller, k)| == 1
  {
    var o1 := ScorePost(rows, nextId, caller, data1, validate);
    ScorePostKeepsOneMatch(rows, nextId, caller, data1, validate, k);
    if o1.response.status == HTTP_201_CREATED {
      ScorePostKeepsOneMatch(o1.rows, o1.nextId, caller, data2, validate, k);
    }
  }

  /** An integer-field serializer: user and score read with int(); any other request is refused. */
  function IntFieldSerializer(found: Option<ScoreRow>, d: RequestData): (v: Result<ScoreFields, Errors>)
    ensures v.Ok? <==> "user" in d && "score" in d && IntOf(d["user"]).Some? && IntOf(d["user"]).value >= 0 && IntOf(d["score"]).Some?
    ensures v.Ok? ==> Some(v.value.user as int) == IntOf(d["user"]) && Some(v.value.score) == IntOf(d["score"])
  {
    if "user" in d && "score" in d && IntOf(d["user"]).Some? && IntOf(d["user"]).value >= 0 && IntOf(d["score"]).Some? then
      Ok(ScoreFields(IntOf(d["user"]).value, IntOf(d["score"]).value, map[]))
    else Err(map["score" := ["A valid integer is required."]])
  }

  /** That serializer meets the assumption of the score lemmas on every request whose score int() reads. */
  lemma IntFieldSerializerSavesKey(data: RequestData, caller: nat, k: int)
    requires "score" in data && IntOf(data["score"]) == Some(k)
    ensures SavesScoreKey(IntFieldSerializer, ForceUser(data, caller), caller, k)
  {
  }

  /** Posting score "42" twice to an empty table: both POSTs save, and the table ends with one row. */
  lemma ScorePostTwiceFromEmpty(caller: nat)
    ensures var d := map["score" := Str("42")];
      var o1 := ScorePost([], 1, caller, d, IntFieldSerializer);
      var o2 := ScorePost(o1.rows, o1.nextId, caller, d, IntFieldSerializer);
      && o1.response.status == HTTP_201_CREATED && o2.response.status == HTTP_201_CREATED
      && |o2.rows| == 1 && o2.response.body.score.id == o1.response.body.score.id == 1
  {
    var d := map["score" := Str("42")];
    assert IntOf(d["score"]) == Some(42) by {
      assert Decimal.DigitsValue("42") == 42 by {
        assert "42"[..1] == "4" && "4"[..0] == [];
      }
    }
    IntFieldSerializerSavesKey(d, caller, 42);
    assert ScoresOf([], caller, 42) == [];
    ScorePostTwiceUpdates([], 1, caller, d, d, IntFieldSerializer, 42);
    var o1 := ScorePost([], 1, caller, d, IntFieldSerializer);
    assert o1.response.status == HTTP_201_CREATED;
    var o2 := ScorePost(o1.rows, o1.nextId, caller, d, IntFieldSerializer);
    assert o2.response.status == HTTP_201_CREATED;
  }

  // ---- SavegameAPI and SavegameListAPI ----

  function UpdatedSavegame(row: SavegameRow, f: SavegameFields, owner: nat): SavegameRow {
    SavegameRow(row.id, owner, f.savegameType, row.extra + f.extra)
  }

  function NewSavegame(id: nat, f: SavegameFields, owner: nat): SavegameRow {
    SavegameRow(id, owner, f.savegameType, f.extra)
  }

  datatype SavegamePostOutcome = SavegamePostOutcome(rows: seq<SavegameRow>, nextId: nat, response: ApiResponse)

  /**
    SavegameAPI.post: the row named by the request's id (whoever owns it) is
    updated, otherwise a new row is created; valid data is saved with the
    caller as owner (201), invalid data saves nothing (400).
   */
  function SavegamePost(rows: seq<SavegameRow>, nextId: nat, caller: nat, data: RequestData, validate: SavegameValidator)
    : (o: SavegamePostOutcome)
    ensures var v := validate(SavegameGetObject(rows, data), data);
      v.Err? ==> o == SavegamePostOutcome(rows, nextId, ApiResponse(HTTP_400_BAD_REQUEST, FieldErrors(v.error)))
    ensures var v := validate(SavegameGetObject(rows, data), data);
      v.Ok? ==>
        && o.response.status == HTTP_201_CREATED && o.response.body.SavegameBody?
        && o.response.body.savegame.owner == caller
        && o.response.body.savegame.savegameType == v.value.savegameType
        && o.response.body.savegame in o.rows
    ensures var found := SavegameGetObject(rows, data);
      var v := validate(found, data);
      v.Ok? ==>
        o.response.body.savegame.extra == (if found.Some? then found.value.extra + v.value.extra else v.value.extra)
    ensures var found := SavegameGetObject(rows, data);
      var v := validate(found, data);
      v.Ok? && found.Some? ==>
        && o.response.body.savegame.id == found.value.id && o.nextId == nextId
        && o.rows == ReplaceByKey(rows, SavegameId, o.response.body.savegame)
    ensures var found := SavegameGetObject(rows, data);
      var v := validate(found, data);
      v.Ok? && found.None? ==>
        && o.response.body.savegame.id == nextId && o.nextId == nextId + 1
        && o.rows == rows + [o.response.body.savegame]
  {
    var found := SavegameGetObject(rows, data);
    match validate(found, data)
    case Err(e) => SavegamePostOutcome(rows, nextId, ApiResponse(HTTP_400_BAD_REQUEST, FieldErrors(e)))
    case Ok(f) =>
      if found.Some? then
        var saved := UpdatedSavegame(found.value, f, caller);
        assert saved in ReplaceByKey(rows, SavegameId, saved) by {
          var i :| 0 <= i < |rows| && rows[i] == found.value;
          assert ReplaceByKey(rows, SavegameId, saved)[i] == saved;
        }
        SavegamePostOutcome(ReplaceByKey(rows, SavegameId, saved), nextId, ApiResponse(HTTP_201_CREATED, SavegameBody(saved)))
      else
        var saved := NewSavegame(nextId, f, caller);
        SavegamePostOutcome(rows + [saved], nextId + 1, ApiResponse(HTTP_201_CREATED, SavegameBody(saved)))
  }

  /**
    The savegame lookup is not scoped by owner: a valid POST naming the id
    of another user's savegame rewrites that row and makes the caller its
    owner.
   */
  lemma SavegamePostTakesAnyId(rows: seq<SavegameRow>, nextId: nat, caller: nat, data: RequestData,
                               validate: SavegameValidator, i: nat)
    requires KeysUnique(rows, SavegameId)
    requires i < |rows|
    requires "id" in data && IntOf(data["id"]) == Some(rows[i].id as int)
    ensures var o := SavegamePost(rows, nextId, caller, data, validate);
      o.response.status == HTTP_201_CREATED ==>
        && |o.rows| == |rows| && o.rows[i].id == rows[i].id && o.rows[i].owner == caller
  {
    var ms := SavegamesWithId(rows, rows[i].id);
    assert rows[i] in ms;
    OneRowPerKey(rows, rows[i].id);
    var found := SavegameGetObject(rows, data);
    assert found.Some?;
    assert found.value.id == rows[i].id;
  }

  lemma {:induction false} NoSavegameWithId(rows: seq<SavegameRow>, id: int)
    requires forall x :: x in rows ==> x.id != id
    ensures SavegamesWithId(rows, id) == []
  {
    if rows != [] {
      NoSavegameWithId(rows[1..], id);
    }
  }

  /** With unique primary keys, a key names at most one savegame. */
  lemma {:induction false} OneRowPerKey(rows: seq<SavegameRow>, id: int)
    requires KeysUnique(rows, SavegameId)
    ensures |SavegamesWithId(rows, id)| <= 1
  {
    if rows != [] {
      assert KeysUnique(rows[1..], SavegameId) by {
        forall i, j | 0 <= i < j < |rows[1..]| ensures SavegameId(rows[1..][i]) != SavegameId(rows[1..][j]) {
          assert rows[1..][i] == rows[i + 1] && rows[1..][j] == rows[j + 1];
        }
      }
      OneRowPerKey(rows[1..], id);
      if rows[0].id == id {
        forall x | x in rows[1..] ensures x.id != id {
          var j :| 0 <= j < |rows[1..]| && rows[1..][j] == x;
          assert SavegameId(rows[0]) != SavegameId(rows[j + 1]);
        }
        NoSavegameWithId(rows[1..], id);
      }
    }
  }

  /** SavegameAPI.get (list): 200 with exactly the caller's savegames. */
  function SavegameGet(rows: seq<SavegameRow>, caller: nat): (resp: ApiResponse)
    ensures resp.status == HTTP_200_OK && resp.body.SavegameList?
    ensures forall r :: r in resp.body.savegames <==> r in rows && r.owner == caller
    ensures forall r :: multiset(resp.body.savegames)[r] == if r.owner == caller then multiset(rows)[r] else 0
  {
    ApiResponse(HTTP_200_OK, SavegameList(SavegameQueryset(rows, caller)))
  }

  /** SavegameListAPI.post (list): 200; empty without SavegameType, otherwise the caller's savegames of that type. */
  function SavegameListPost(rows: seq<SavegameRow>, caller: nat, data: RequestData): (resp: ApiResponse)
    ensures resp.status == HTTP_200_OK && resp.body.SavegameList?
    ensures "SavegameType" !in data ==> resp.body.savegames == []
    ensures "SavegameType" in data ==>
      forall r :: r in resp.body.savegames <==>
        r in rows && r.owner == caller && r.savegameType == TextOf(data["SavegameType"])
    ensures "SavegameType" in data ==>
      forall r :: multiset(resp.body.savegames)[r] ==
        if r.owner == caller && r.savegameType == TextOf(data["SavegameType"]) then multiset(rows)[r] else 0
  {
    var out := SavegameListQueryset(rows, caller, data);
    assert forall r :: r in out <==> multiset(out)[r] > 0;
    ApiResponse(HTTP_200_OK, SavegameList(out))
  }

  /** The filtered list never shows more than the plain list. */
  lemma FilteredListWithinOwnList(rows: seq<SavegameRow>, caller: nat, data: RequestData)
    ensures forall r :: r in SavegameListPost(rows, caller, data).body.savegames ==> r in SavegameGet(rows, caller).body.savegames
  {
  }

  // ---- ScoreAPI.get ----

  /** ScoreAPI.get (list): 200 with every score row, whoever owns it. */
  function ScoreGet(rows: seq<ScoreRow>): (resp: ApiResponse)
    ensures resp.status == HTTP_200_OK && resp.body == ScoreList(rows)
  {
    ApiResponse(HTTP_200_OK, ScoreList(rows))
  }

  // ---- DeleteUser ----

  /** Every row that does not belong to the given user. */
  function WithoutUser(users: seq<User>, id: nat): (out: seq<User>)
    ensures forall u :: u in out <==> u in users && u.id != id
    ensures KeysUnique(users, UserId) ==> KeysUnique(out, UserId)
  {
    if users == [] then []
    else
      var rest := WithoutUser(users[1..], id);
      if users[0].id == id then rest else [users[0]] + rest
  }

  /** The user's token goes with the user. */
  function WithoutTokensOf(tokens: seq<TokenRow>, user: nat): (out: seq<TokenRow>)
    ensures forall t :: t in out <==> t in tokens && t.user != user
    ensures TokensWellFormed(tokens) ==> TokensWellFormed(out)
  {
    if tokens == [] then []
    else
      var rest := WithoutTokensOf(tokens[1..], user);
      if tokens[0].user == user then rest else [tokens[0]] + rest
  }

  datatype DeleteOutcome = DeleteOutcome(users: seq<User>, tokens: seq<TokenRow>, response: ApiResponse)

  /**
    DeleteUser.post: the account is removed (204) only when username and
    email name a single user and the password checks; every other case,
    a missing field included, is the one 400 "Could not find that user"
    and removes nothing.
   */
  function DeleteUser(users: seq<User>, tokens: seq<TokenRow>, data: RequestData, checkPassword: (User, string) -> bool)
    : (o: DeleteOutcome)
    ensures o.response.status == HTTP_204_NO_CONTENT || o.response == ApiResponse(HTTP_400_BAD_REQUEST, Message(UnknownUserMessage))
    ensures o.response.status == HTTP_204_NO_CONTENT <==> DeleteUserTarget(users, data, checkPassword).Some?
    ensures o.response.status != HTTP_204_NO_CONTENT ==> o.users == users && o.tokens == tokens
    ensures o.response.status == HTTP_204_NO_CONTENT ==>
      && o.response.body == NoBody
      && var gone := DeleteUserTarget(users, data, checkPassword).value;
      && gone.username == TextOf(data["username"]) && gone.email == TextOf(data["email"])
      && checkPassword(gone, TextOf(data["password"]))
      && (forall u :: u in o.users <==> u in users && u.id != gone.id)
      && (forall t :: t in o.tokens <==> t in tokens && t.user != gone.id)
  {
    match DeleteUserTarget(users, data, checkPassword)
    case None => DeleteOutcome(users, tokens, ApiResponse(HTTP_400_BAD_REQUEST, Message(UnknownUserMessage)))
    case Some(u) => DeleteOutcome(WithoutUser(users, u.id), WithoutTokensOf(tokens, u.id), ApiResponse(HTTP_204_NO_CONTENT, NoBody))
  }

  /** A wrong password gets the same answer as an unknown account. */
  lemma WrongPasswordLooksLikeUnknownUser(users: seq<User>, tokens: seq<TokenRow>, data: RequestData,
                                          checkPassword: (User, string) -> bool)
    requires "username" in data && "email" in data && "password" in data
    requires forall u :: u in users && u.username == TextOf(data["username"]) && u.email == TextOf(data["email"]) ==>
      !checkPassword(u, TextOf(data["password"]))
    ensures DeleteUser(users, tokens, data, checkPassword) == DeleteOutcome(users, tokens, ApiResponse(HTTP_400_BAD_REQUEST, Message(UnknownUserMessage)))
  {
    var ms := UsersNamed(users, TextOf(data["username"]), TextOf(data["email"]));
    if |ms| == 1 {
      assert ms[0] in ms;
    }
  }

  // ---- GetAuthToken ----

  datatype TokenOutcome = TokenOutcome(tokens: seq<TokenRow>, response: ApiResponse)

  /**
    GetAuthToken.post. `validation` is the credential serializer's verdict
    (the user, or the errors its exception carries, answered with 400);
    `freshKey` is the key a new token would get. The token of the user is
    returned if there is one, otherwise one is created.
   */
  function GetAuthToken(tokens: seq<TokenRow>, validation: Result<nat, Errors>, freshKey: string): (o: TokenOutcome)
    ensures validation.Err? ==> o == TokenOutcome(tokens, ApiResponse(HTTP_400_BAD_REQUEST, FieldErrors(validation.error)))
    ensures validation.Ok? ==> o.response.status == HTTP_200_OK && o.response.body.TokenBody?
    ensures validation.Ok? ==> TokenFor(o.tokens, validation.value) == Some(TokenRow(o.response.body.token, validation.value))
    ensures validation.Ok? && TokenFor(tokens, validation.value).Some? ==>
      o.tokens == tokens && o.response.body.token == TokenFor(tokens, validation.value).value.key
    ensures validation.Ok? && TokenFor(tokens, validation.value).None? ==>
      o.tokens == tokens + [TokenRow(freshKey, validation.value)] && o.response.body.token == freshKey
  {
    match validation
    case Err(e) => TokenOutcome(tokens, ApiResponse(HTTP_400_BAD_REQUEST, FieldErrors(e)))
    case Ok(user) =>
      match TokenFor(tokens, user)
      case Some(t) => TokenOutcome(tokens, ApiResponse(HTTP_200_OK, TokenBody(t.key)))
      case None =>
        TokenForAppend(tokens, TokenRow(freshKey, user), user);
        TokenOutcome(tokens + [TokenRow(freshKey, user)], ApiResponse(HTTP_200_OK, TokenBody(freshKey)))
  }

  lemma {:induction false} TokenForAppend(tokens: seq<TokenRow>, t: TokenRow, user: nat)
    requires TokenFor(tokens, user).None? && t.user == user
    ensures TokenFor(tokens + [t], user) == Some(t)
  {
    if tokens == [] {
      assert tokens + [t] == [t];
    } else {
      assert (tokens + [t])[1..] == tokens[1..] + [t];
      TokenForAppend(tokens[1..], t, user);
    }
  }

  /** Get-or-create never duplicates: a second request for the same user gets the same key and adds nothing. */
  lemma GetAuthTokenTwice(tokens: seq<TokenRow>, user: nat, key1: string, key2: string)
    ensures var o1 := GetAuthToken(tokens, Ok(user), key1);
      var o2 := GetAuthToken(o1.tokens, Ok(user), key2);
      o2.tokens == o1.tokens && o2.response == o1.response
  {
  }

  /** Get-or-create keeps the table at one token per user and one user per key, given a fresh key. */
  lemma {:induction false} GetAuthTokenKeepsTable(tokens: seq<TokenRow>, validation: Result<nat, Errors>, freshKey: string)
    requires TokensWellFormed(tokens)
    requires forall t :: t in tokens ==> t.key != freshKey
    ensures TokensWellFormed(GetAuthToken(tokens, validation, freshKey).tokens)
  {
    if validation.Ok? && TokenFor(tokens, validation.value).None? {
      var out := tokens + [TokenRow(freshKey, validation.value)];
      forall i, j | 0 <= i < j < |out| ensures out[i].user != out[j].user && out[i].key != out[j].key {
        if j == |tokens| {
          assert out[i] in tokens;
        }
      }
    }
  }

  // ---- every view's response leaves through UnityAPIView ----

  /** A view's Response, finalized: wire status 200, the real status in REAL_STATUS, the payload untouched. */
  method Finalize(resp: ApiResponse) returns (http: UnityApiView.HttpResponse<Body>)
    ensures fresh(http)
    ensures http.statusCode == UnityApiView.WireStatus && http.data == resp.body
    ensures http.headers == UnityApiView.Finalized(map[], resp.status)
  {
    http := new UnityApiView.HttpResponse(resp.status, resp.body);
    http.FinalizeResponse();
  }

  // ---- the tables, updated in place ----

  /** The stored tables; each request is one step over them. */
  class Database {
    var users: seq<User>
    var scores: seq<ScoreRow>
    var nextScoreId: nat
    var savegames: seq<SavegameRow>
    var nextSavegameId: nat
    var tokens: seq<TokenRow>

    ghost predicate Valid()
      reads this
    {
      && KeysUnique(users, UserId)
      && KeysUnique(scores, ScoreId) && KeysBelow(scores, ScoreId, nextScoreId)
      && KeysUnique(savegames, SavegameId) && KeysBelow(savegames, SavegameId, nextSavegameId)
      && TokensWellFormed(tokens)
    }

    constructor (users: seq<User>)
      requires KeysUnique(users, UserId)
      ensures Valid()
      ensures this.users == users && scores == [] && savegames == [] && tokens == []
    {
      this.users := users;
      scores, nextScoreId := [], 1;
      savegames, nextSavegameId := [], 1;
      tokens := [];
    }

    /** ScoreAPI.post. */
    method PostScore(caller: nat, data: RequestData, validate: ScoreValidator) returns (response: ApiResponse)
      requires Valid()
      modifies this
      ensures Valid()
      ensures var o := ScorePost(old(scores), old(nextScoreId), caller, data, validate);
        scores == o.rows && nextScoreId == o.nextId && response == o.response
      ensures users == old(users) && savegames == old(savegames) && nextSavegameId == old(nextSavegameId) && tokens == old(tokens)
    {
      var d := ForceUser(data, caller);
      var score := ScorePostLookup(scores, caller, data);
      var verdict := validate(score, d);
      if verdict.Err? {
        return ApiResponse(HTTP_400_BAD_REQUEST, FieldErrors(verdict.error));
      }
      if score.Some? {
        var saved := UpdatedScore(score.value, verdict.value, caller);
        assert score.value in scores;
        ReplaceKeepsKeys(scores, saved, nextScoreId);
        scores := ReplaceByKey(scores, ScoreId, saved);
        response := ApiResponse(HTTP_201_CREATED, ScoreBody(saved));
      } else {
        var saved := NewScore(nextScoreId, verdict.value, caller);
        scores := scores + [saved];
        nextScoreId := nextScoreId + 1;
        response := ApiResponse(HTTP_201_CREATED, ScoreBody(saved));
      }
    }

    /** SavegameAPI.post. */
    method PostSavegame(caller: nat, data: RequestData, validate: SavegameValidator) returns (response: ApiResponse)
      requires Valid()
      modifies this
      ensures Valid()
      ensures var o := SavegamePost(old(savegames), old(nextSavegameId), caller, data, validate);
        savegames == o.rows && nextSavegameId == o.nextId && response == o.response
      ensures users == old(users) && scores == old(scores) && nextScoreId == old(nextScoreId) && tokens == old(tokens)
    {
      var savegame := SavegameGetObject(savegames, data);
      var verdict := validate(savegame, data);
      if verdict.Err? {
        return ApiResponse(HTTP_400_BAD_REQUEST, FieldErrors(verdict.error));
      }
      if savegame.Some? {
        var saved := UpdatedSavegame(savegame.value, verdict.value, caller);
        savegames := ReplaceByKey(savegames, SavegameId, saved);
        response := ApiResponse(HTTP_201_CREATED, SavegameBody(saved));
      } else {
        var saved := NewSavegame(nextSavegameId, verdict.value, caller);
        savegames := savegames + [saved];
        nextSavegameId := nextSavegameId + 1;
        response := ApiResponse(HTTP_201_CREATED, SavegameBody(saved));
      }
    }

    /** DeleteUser.post. */
    method DeleteAccount(data: RequestData, checkPassword: (User, string) -> bool) returns (response: ApiResponse)
      requires Valid()
      modifies this
      ensures Valid()
      ensures var o := DeleteUser(old(users), old(tokens), data, checkPassword);
        users == o.users && tokens == o.tokens && response == o.response
      ensures scores == old(scores) && savegames == old(savegames)
      ensures nextScoreId == old(nextScoreId) && nextSavegameId == old(nextSavegameId)
    {
      var user := DeleteUserTarget(users, data, checkPassword);
      if user.None? {
        return ApiResponse(HTTP_400_BAD_REQUEST, Message(UnknownUserMessage));
      }
      users := WithoutUser(users, user.value.id);
      tokens := WithoutTokensOf(tokens, user.value.id);
      response := ApiResponse(HTTP_204_NO_CONTENT, NoBody);
    }

    /** GetAuthToken.post; `freshKey` is the generated key, new to the table. */
    method RequestToken(validation: Result<nat, Errors>, freshKey: string) returns (response: ApiResponse)
      requires Valid()
      requires forall t :: t in tokens ==> t.key != freshKey
      modifies this
      ensures Valid()
      ensures var o := GetAuthToken(old(tokens), validation, freshKey);
        tokens == o.tokens && response == o.response
      ensures users == old(users) && scores == old(scores) && savegames == old(savegames)
      ensures nextScoreId == old(nextScoreId) && nextSavegameId == old(nextSavegameId)
    {
      GetAuthTokenKeepsTable(tokens, validation, freshKey);
      if validation.Err? {
        return ApiResponse(HTTP_400_BAD_REQUEST, FieldErrors(validation.error));
      }
      var token := TokenFor(tokens, validation.value);
      if token.None? {
        TokenForAppend(tokens, TokenRow(freshKey, validation.value), validation.value);
        tokens := tokens + [TokenRow(freshKey, validation.value)];
        response := ApiResponse(HTTP_200_OK, TokenBody(freshKey));
      } else {
        response := ApiResponse(HTTP_200_OK, TokenBody(token.value.key));
      }
    }

    /** ScoreAPI.get. */
    method ListScores() returns (response: ApiResponse)
      ensures response == ScoreGet(scores)
    {
      response := ApiResponse(HTTP_200_OK, ScoreList(scores));
    }

    /** SavegameAPI.get. */
    method ListSavegames(caller: nat) returns (response: ApiResponse)
      ensures response == SavegameGet(savegames, caller)
    {
      response := ApiResponse(HTTP_200_OK, SavegameList(SavegameQueryset(savegames, caller)));
    }

    /** SavegameListAPI.post. */
    method ListSavegamesOfType(caller: nat, data: RequestData) returns (response: ApiResponse)
      ensures response == SavegameListPost(savegames, caller, data)
    {
      response := ApiResponse(HTTP_200_OK, SavegameList(SavegameListQueryset(savegames, caller, data)));
    }
  }
}

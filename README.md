# Unity backend status protocol and API views, in Dafny

This project models the core of a small game backend and its game-engine client.

The server is a set of REST views: scores, account deletion, token issue, savegames. Every response leaves the server with HTTP status 200. The real status travels in a `REAL_STATUS` header as `"<code> <reason>"`, because the engine's HTTP client drops the body of any non-200 response. The client (`BackendManager`) builds each request (URL, body, headers). It then sorts each finished request into exactly one `ResponseType` and calls the caller's delegate at most once.

The model has three layers:

- **Integer text.** Module `Decimal` has Python's `'%s' % n` and `int(...)`, and .NET's `Int32.Parse`.
- **The protocol.** Module `UnityApiView` is the server side: `finalize_response` on a `HttpResponse` class that it updates in place. Module `BackendRequest` builds the request: `hostUrl`, and `Send` over a `HeaderTable` class that it fills in place. Module `BackendResponse` has the decision table of `HandleRequest` as a pure function. Module `StatusProtocol` proves the round trip between the two sides: for any 32-bit code the server writes, the client reads back that code. It also proves which `ResponseType` such a response produces.
- **The views.** Module `Tables` holds the rows and the read-only ORM queries as functions over sequences of rows. Module `Endpoints` has one function per view, from the tables before a request to the tables after it plus the response. Its `Database` class performs the same steps in place.

Things the frameworks decide are parameters:

- serializer validation, passed as a function from (instance, request data) to validated columns or errors;
- the authentication serializer's verdict;
- `check_password`;
- the generated token key;
- the two JSON parsers;
- the headers of a freshly built engine form.

Three behaviours of the views are easy to misread:

- The score lookup is keyed by the authenticated caller: the view overwrites the client's `user` field with the caller's id before it looks anything up (api.py lines 77-81, `ScorePostIgnoresClientUser`).
- A missing score looks up score -1. It finds the caller's row with score -1 when there is one (`MissingScoreUsesSentinel`).
- The savegame lookup is by id alone, not by owner. A valid POST naming another user's savegame id rewrites that row and makes the caller its owner (`SavegamePostTakesAnyId`).

## Model

| member | source | states |
|---|---|---|
| Decimal.Show | Django/DjangoUnityTutorial/unitybackendapp/api.py:48 | the decimal text of a code has no space, ends in a digit and starts with a digit or '-' |
| Decimal.Digits | Django/DjangoUnityTutorial/unitybackendapp/api.py:48 | the digit string of n is non-empty, all digits, has no leading zero, and its value is n |
| Decimal.ParseShow | Django/DjangoUnityTutorial/unitybackendapp/api.py:68 | int() of the text str() gives for n is n |
| Decimal.ParseInteger | Django/DjangoUnityTutorial/unitybackendapp/api.py:68 | int() refuses the empty text and text of white space only; a digit string reads as its value, '-' and digits as the negated value; white space is what str.isspace() accepts, separators U+001C..U+001F included |
| Decimal.ParseNetInteger | Unity/Assets/Scripts/BackendManager/BackendManager.cs:142 | the same grammar with .NET's white space (U+0009..U+000D and the space): the empty and all-blank texts are refused, digit strings read as their value |
| Decimal.ParseInt32 | Unity/Assets/Scripts/BackendManager/BackendManager.cs:142 | Int32.Parse succeeds exactly when .NET's reader finds an integer within 32 bits, and then yields that integer |
| Decimal.ParseNetShow | Unity/Assets/Scripts/BackendManager/BackendManager.cs:142 | .NET's reader gives back any integer Python printed, before the range check |
| Decimal.SeparatorSkippedOnlyByPython | Django/DjangoUnityTutorial/unitybackendapp/api.py:68 | the readers differ: int() reads "\x1c7" as 7, Int32.Parse refuses it |
| Decimal.ParseInt32Show | Unity/Assets/Scripts/BackendManager/BackendManager.cs:142 | within 32 bits, Int32.Parse reads back exactly what the server printed |
| UnityApiView.StatusText | Django/DjangoUnityTutorial/unitybackendapp/api.py:48 | only codes in 100..505 have a phrase, and every code the client counts as a success has one |
| UnityApiView.Finalized | Django/DjangoUnityTutorial/unitybackendapp/api.py:48-49 | the finalized headers are the old ones plus REAL_STATUS, holding the code and its phrase; every other header keeps its value |
| UnityApiView.RealStatus | Django/DjangoUnityTutorial/unitybackendapp/api.py:48 | the header value is the code's decimal text, one space, then the reason phrase |
| UnityApiView.HttpResponse.FinalizeResponse | Django/DjangoUnityTutorial/unitybackendapp/api.py:46-50 | afterwards the status is 200, the headers are Finalized of the old headers and the old code, and the payload is unchanged |
| Endpoints.Finalize | Django/DjangoUnityTutorial/unitybackendapp/api.py:46-50 | a view's response leaves with wire status 200, the headers Finalized gives for its real status, and its payload untouched |
| BackendRequest.DefaultIsDevelopment | Unity/Assets/Scripts/BackendManager/BackendManager.cs:65-70 | with the serialized defaults the host URL is the development URL, and the production URL once UseProduction is set |
| BackendRequest.HostUrl | Unity/Assets/Scripts/BackendManager/BackendManager.cs:74-78 | the production URL when UseProduction is set, the development URL otherwise |
| BackendRequest.RequestTypeName | Unity/Assets/Scripts/BackendManager/BackendManager.cs:108 | the enum name ToString() gives: a capital letter followed by lower-case letters |
| BackendRequest.UpperChar | Unity/Assets/Scripts/BackendManager/BackendManager.cs:108 | a lower-case ASCII letter becomes its capital, every other character is kept |
| BackendRequest.UnityMethod | Unity/Assets/Scripts/BackendManager/BackendManager.cs:108 | the UNITY_METHOD value has the type name's length and is all capitals |
| BackendRequest.ToUpper | Unity/Assets/Scripts/BackendManager/BackendManager.cs:108 | same length; each lower-case ASCII letter is raised and every other character is kept |
| BackendRequest.UnityMethodValues | Unity/Assets/Scripts/BackendManager/BackendManager.cs:108 | the UNITY_METHOD values are GET, POST, UPDATE and DELETE |
| BackendRequest.UnityMethodInjective | Unity/Assets/Scripts/BackendManager/BackendManager.cs:108 | two request types give the same UNITY_METHOD value exactly when they are the same type |
| BackendRequest.HeaderTable.Add | Unity/Assets/Scripts/BackendManager/BackendManager.cs:105 | a new key is stored with its value; a key already present is refused and the table is unchanged |
| BackendRequest.Send | Unity/Assets/Scripts/BackendManager/BackendManager.cs:89-115 | the URL is host URL + command; a null form sends exactly the byte 1, otherwise the form's data; the headers are the form's plus Accept: application/json, UNITY_METHOD and, only for a non-empty token, Authorization: Token <t>; a header clash fails with that header's name, in the order the headers are added |
| BackendResponse.FirstField | Unity/Assets/Scripts/BackendManager/BackendManager.cs:142 | the result is the prefix of the header before its first space |
| BackendResponse.ReadStatusCode | Unity/Assets/Scripts/BackendManager/BackendManager.cs:138-143 | 200 without REAL_STATUS; otherwise the integer .NET reads from the header's first field, None exactly when that is no integer or not within 32 bits |
| BackendResponse.IsSuccessful | Unity/Assets/Scripts/BackendManager/BackendManager.cs:145 | a status counts as a success exactly when it lies in 200..206: 201..206 succeed, 207..299 and every non-2xx code fail |
| BackendResponse.ParseBody | Unity/Assets/Scripts/BackendManager/BackendManager.cs:149-153 | a body that starts with '[' goes to the array parser, every other body to the object parser |
| BackendResponse.HandleRequest | Unity/Assets/Scripts/BackendManager/BackendManager.cs:131-184 | the delegate is called at most once and never when it is null. RequestError exactly when there is a transport error. ErrorFromServer exactly when the code is outside 200..206 and the body parsed. Success exactly when the code is inside 200..206 and the body parsed or is empty. ParseError for every other parse failure. JSON is carried only by Success and ErrorFromServer. ErrorFromClient and BackendDisabled never occur. An unparsable status ends the request with an exception and no call |
| BackendResponse.RequestErrorIgnoresResponse | Unity/Assets/Scripts/BackendManager/BackendManager.cs:132-137 | with a transport error the outcome is RequestError with null JSON, whatever the headers and body |
| StatusProtocol.FirstFieldOfRealStatus | Unity/Assets/Scripts/BackendManager/BackendManager.cs:142 | splitting the server's REAL_STATUS value at its first space gives the decimal code, whatever the reason phrase |
| StatusProtocol.ClientRecoversServerStatus | Unity/Assets/Scripts/BackendManager/BackendManager.cs:138-143 | round trip: for every 32-bit code the server writes, the client's status code is that code |
| StatusProtocol.FinalizedStatusReadBack | Unity/Assets/Scripts/BackendManager/BackendManager.cs:138-143 | the headers a finalized response carries make the client read back the real status, for any 32-bit code and any other headers |
| StatusProtocol.ViewStatusesClassified | Unity/Assets/Scripts/BackendManager/BackendManager.cs:145 | the statuses the views answer with reach the client as meant: 200, 201 and 204 as successes, 400 as a failure, each read back exactly |
| StatusProtocol.OutOfRangeStatusThrows | Unity/Assets/Scripts/BackendManager/BackendManager.cs:142 | a code outside 32 bits makes int.Parse throw, and the delegate is never called |
| StatusProtocol.FinalizedResponseOutcome | Unity/Assets/Scripts/BackendManager/BackendManager.cs:145-183 | a finalized response calls the delegate exactly once. With a parsed body it is Success for codes 200..206 and ErrorFromServer otherwise; with an unparsed body it is Success with null only for a success code and an empty body, and ParseError otherwise |
| StatusProtocol.NoContentIsSuccess | Unity/Assets/Scripts/BackendManager/BackendManager.cs:160-162 | the empty 204 answer of account deletion reaches the delegate as Success with null JSON |
| StatusProtocol.MissingHeaderMeansOk | Unity/Assets/Scripts/BackendManager/BackendManager.cs:138 | without REAL_STATUS the status code is 200, a successful one |
| Tables.IntOf | Django/DjangoUnityTutorial/unitybackendapp/api.py:68 | int() of an int field is that int; of a text field it is ParseInteger of the text |
| Tables.TextOf | Django/DjangoUnityTutorial/unitybackendapp/api.py:104 | a text field is its own text; the text of an int field reads back as that int |
| Tables.IntOfText | Django/DjangoUnityTutorial/unitybackendapp/api.py:68 | int() of any field is int() of its text |
| Tables.ReplaceByKey | Django/DjangoUnityTutorial/unitybackendapp/api.py:88 | saving an instance replaces the row with its primary key and leaves every other row as it was |
| Tables.ScoresOf | Django/DjangoUnityTutorial/unitybackendapp/api.py:69 | the rows matching (user, score) are exactly the stored rows with that user and score, each as often as it is stored |
| Tables.UniqueScore | Django/DjangoUnityTutorial/unitybackendapp/api.py:69 | .get() yields a row exactly when one row matches, and then it is the only matching row |
| Tables.ScoreGetObject | Django/DjangoUnityTutorial/unitybackendapp/api.py:66-71 | None when int() refuses the score or the user; otherwise the unique row of that user and that integer score, or None |
| Tables.SavegamesOwnedBy | Django/DjangoUnityTutorial/unitybackendapp/api.py:131 | each row of the owner appears as often as it is stored, and no other row appears |
| Tables.SavegamesOfType | Django/DjangoUnityTutorial/unitybackendapp/api.py:164 | each row of the type appears as often as it is stored, and no other row appears |
| Tables.SavegameQueryset | Django/DjangoUnityTutorial/unitybackendapp/api.py:130-132 | exactly the caller's savegames, each stored row listed as often as it is stored (multiset equality with the owner filter) |
| Tables.SavegameListQueryset | Django/DjangoUnityTutorial/unitybackendapp/api.py:161-165 | empty without a SavegameType field; otherwise exactly the caller's savegames of that type, with their multiplicities |
| Tables.SavegamesWithId | Django/DjangoUnityTutorial/unitybackendapp/api.py:136 | exactly the stored rows with that primary key, each as often as it is stored |
| Tables.SavegameGetObject | Django/DjangoUnityTutorial/unitybackendapp/api.py:134-138 | a row exactly when an id field is present, is an integer and names one row, whoever owns it; the row has that id |
| Tables.UsersNamed | Django/DjangoUnityTutorial/unitybackendapp/api.py:104 | exactly the users with that username and email, each as often as stored |
| Tables.DeleteUserTarget | Django/DjangoUnityTutorial/unitybackendapp/api.py:103-106 | a user exactly when username and email are present and name one user, the password field is present, and its check passes |
| Tables.TokenFor | Django/DjangoUnityTutorial/unitybackendapp/api.py:122 | a token exactly when the user has one, and it is one of theirs |
| Endpoints.ForceUser | Django/DjangoUnityTutorial/unitybackendapp/api.py:78-79 | the user field becomes the caller's pk and every other field is kept |
| Endpoints.ScoreArgument | Django/DjangoUnityTutorial/unitybackendapp/api.py:81 | the score field, or -1 when it is absent |
| Endpoints.ScorePostLookup | Django/DjangoUnityTutorial/unitybackendapp/api.py:79-81 | the lookup is keyed by the caller: a found row is stored and belongs to the caller |
| Endpoints.ScorePost | Django/DjangoUnityTutorial/unitybackendapp/api.py:73-90 | invalid data gives 400 with the errors and changes nothing. Valid data gives 201 with the saved row, owned by the caller, holding the validated user, score and other columns (merged over the found row's columns on an update). A found row is replaced in place under its key; otherwise a row with the next key is appended |
| Endpoints.ScorePostIgnoresClientUser | Django/DjangoUnityTutorial/unitybackendapp/api.py:77-81 | whatever user a client sends, the POST has the same outcome |
| Endpoints.MissingScoreUsesSentinel | Django/DjangoUnityTutorial/unitybackendapp/api.py:81 | with no score field the lookup is for score -1, and finds nothing unless the caller stored -1 |
| Endpoints.UnparsableScoreCreates | Django/DjangoUnityTutorial/unitybackendapp/api.py:66-85 | a score that int() refuses becomes a create: a valid POST adds one row with the next key |
| Endpoints.ScorePostUpdateCase | Django/DjangoUnityTutorial/unitybackendapp/api.py:82-88 | when the caller's row was found, a valid POST changes that row under its key, adds nothing, and the caller still has one row with that score |
| Endpoints.ScorePostCreateCase | Django/DjangoUnityTutorial/unitybackendapp/api.py:84-88 | when the caller had no row with that score, a valid POST appends one, with a new key |
| Endpoints.ScorePostKeepsOneMatch | Django/DjangoUnityTutorial/unitybackendapp/api.py:81-88 | if the caller had at most one row with score k, after a valid POST they have exactly one, the saved one; keys stay unique |
| Endpoints.ScorePostTwiceUpdates | Django/DjangoUnityTutorial/unitybackendapp/api.py:81-88 | posting the same (caller, score) twice, when the caller had at most one row with that score: the second POST updates the first one's row instead of adding a second |
| Endpoints.IntFieldSerializer | Django/DjangoUnityTutorial/unitybackendapp/api.py:83-87 | a stand-in integer-field serializer: it accepts exactly the requests whose user and score int() reads (a non-negative user), and validates to those two integers |
| Endpoints.IntFieldSerializerSavesKey | Django/DjangoUnityTutorial/unitybackendapp/api.py:83-87 | that serializer meets SavesScoreKey on every request whose score int() reads as k |
| Endpoints.ScorePostTwiceFromEmpty | Django/DjangoUnityTutorial/unitybackendapp/api.py:81-88 | posting score "42" twice to an empty table: both POSTs answer 201, the second updates the first one's row (id 1), and one row remains |
| Endpoints.SavegamePost | Django/DjangoUnityTutorial/unitybackendapp/api.py:140-150 | invalid data gives 400 with the errors and changes nothing. Valid data gives 201 with the saved row, owned by the caller, holding the validated type and payload columns (merged over the found row's columns on an update). The row named by id is replaced in place; otherwise a row with the next key is appended |
| Endpoints.SavegamePostTakesAnyId | Django/DjangoUnityTutorial/unitybackendapp/api.py:134-148 | the lookup is by id alone: a valid POST naming any stored savegame's id rewrites that row and gives it to the caller |
| Endpoints.OneRowPerKey | Django/DjangoUnityTutorial/unitybackendapp/api.py:136 | with unique primary keys, a key names at most one savegame |
| Endpoints.SavegameGet | Django/DjangoUnityTutorial/unitybackendapp/api.py:152-153 | 200 listing exactly the caller's savegames, each as often as it is stored (multiset equality) |
| Endpoints.SavegameListPost | Django/DjangoUnityTutorial/unitybackendapp/api.py:161-168 | 200; empty without SavegameType, otherwise exactly the caller's savegames of that type, each as often as it is stored (multiset equality) |
| Endpoints.FilteredListWithinOwnList | Django/DjangoUnityTutorial/unitybackendapp/api.py:161-165 | the filtered list shows nothing the caller's full list does not |
| Endpoints.ScoreGet | Django/DjangoUnityTutorial/unitybackendapp/api.py:63-64 | 200 listing every score row |
| Endpoints.WithoutUser | Django/DjangoUnityTutorial/unitybackendapp/api.py:107 | exactly the users with a different id remain, and ids stay unique |
| Endpoints.WithoutTokensOf | Django/DjangoUnityTutorial/unitybackendapp/api.py:107 | the deleted user's token goes with them; the table stays one token per user |
| Endpoints.DeleteUser | Django/DjangoUnityTutorial/unitybackendapp/api.py:101-110 | 204 with no body exactly when username and email name one user and the password checks, and then only that user and their token are removed; every other case is 400 "Could not find that user" and removes nothing |
| Endpoints.WrongPasswordLooksLikeUnknownUser | Django/DjangoUnityTutorial/unitybackendapp/api.py:103-109 | when every user with that username and email rejects the password, the answer is the same generic 400 as for an unknown account, and nothing is deleted |
| Endpoints.GetAuthToken | Django/DjangoUnityTutorial/unitybackendapp/api.py:118-123 | failed credentials give 400 with the errors and change nothing. A validated user gets 200 with their token key: the existing one, else a new one appended |
| Endpoints.TokenForAppend | Django/DjangoUnityTutorial/unitybackendapp/api.py:122 | a token created for a user without one is the one later lookups find |
| Endpoints.GetAuthTokenTwice | Django/DjangoUnityTutorial/unitybackendapp/api.py:122-123 | a second request for the same user returns the same key and adds no token |
| Endpoints.GetAuthTokenKeepsTable | Django/DjangoUnityTutorial/unitybackendapp/api.py:122 | get-or-create keeps one token per user and one user per key |
| Endpoints.Database.PostScore | Django/DjangoUnityTutorial/unitybackendapp/api.py:73-90 | the score table, next key and response become those ScorePost gives; the other tables are unchanged; the key invariants are kept |
| Endpoints.Database.PostSavegame | Django/DjangoUnityTutorial/unitybackendapp/api.py:140-150 | the savegame table, next key and response become those SavegamePost gives; the other tables are unchanged |
| Endpoints.Database.DeleteAccount | Django/DjangoUnityTutorial/unitybackendapp/api.py:101-110 | the users, tokens and response become those DeleteUser gives; scores and savegames are unchanged |
| Endpoints.Database.RequestToken | Django/DjangoUnityTutorial/unitybackendapp/api.py:118-123 | the tokens and response become those GetAuthToken gives; the token table stays one per user |
| Endpoints.Database.ListScores | Django/DjangoUnityTutorial/unitybackendapp/api.py:63-64 | the response lists the score table as stored |
| Endpoints.Database.ListSavegames | Django/DjangoUnityTutorial/unitybackendapp/api.py:152-153 | the response lists the caller's savegames |
| Endpoints.Database.ListSavegamesOfType | Django/DjangoUnityTutorial/unitybackendapp/api.py:167-168 | the response is the filtered savegame list |

## Left out

- The REST framework machinery: serializers and their validation rules, authentication, permission and throttle classes, parsers and renderers. Validation, the credential check and the password check are parameters. The model assumes a serializer yields the known columns: user and score for a score, the type for a savegame. The other columns are an opaque attribute map.
- Query execution and persistence. Tables are sequences of rows in storage order, and a queryset's order is that storage order. Primary keys come from a counter. `.get()` is modelled as its unique-match rule.
- Cascading deletes of scores and savegames when a user is deleted. The Django model classes (models.py) and their on_delete rules are not part of this model. The user's token is deleted with the user.
- The lookup-then-write race for scores, savegames and tokens. Each request is one atomic step.
- Token key generation (random bytes). The key is a parameter; `RequestToken` requires that it is new to the table.
- Exceptions the views do not catch. These are the TypeError of a JSON number field in the score view (above), a `MultipleObjectsReturned` in token get-or-create, which the one-token-per-user invariant rules out, and database errors.
- `RegisterUser`, and the `pre_save` hook of the score view, which the framework version in use never calls.
- Endpoints.ScorePost: request data stands for a form-encoded body, read as the form's last value per field. JSON bodies, which the framework's default parsers also accept, are not modelled. The view wraps the data in a `MultiValueDict`, whose `data[k]` returns `value[-1]`. For a JSON text field that is its last character: `{"score": "42"}` is looked up and validated as score "2". For a JSON number, `42[-1]` raises a TypeError at api.py line 81, outside `get_object`'s `try`, so the view answers with no wrapped response.
- Endpoints.ScorePostUpdateCase: assumes (`SavesScoreKey`) that on this request the serializer validates to the caller as user and to the score k that `int()` reads from the field. A serializer that stores another score for the same text is outside the lemma.
- Endpoints.ScorePostCreateCase: makes the same `SavesScoreKey` assumption about this request.
- Endpoints.ScorePostKeepsOneMatch: makes the same `SavesScoreKey` assumption about this request.
- Endpoints.ScorePostTwiceUpdates: makes the `SavesScoreKey` assumption about both requests.
- Request data is a map holding one value per field. Multi-value form fields are not modelled. A field is either text or an integer. Text columns compare a field as its `str()`.
- Decimal.ParseInteger: Python's `int()` also accepts non-ASCII decimal digits, white space between the sign and the digits on Python 2, and underscores between digits on Python 3.6 and later; the model refuses all three. Its white-space set is that of current Unicode tables; Python 2.7's older tables also count U+180E.
- Decimal.ParseInt32: .NET also ignores trailing NUL characters and takes its sign symbols from the current culture; the model takes '-' and '+' and no NULs.
- `ToUpper` is modelled for ASCII. This is exact for the four request type names, which contain no letter whose case depends on the culture.
- Django's case-insensitive header names. The engine client's transport: `WWW`, `WWWForm`, the polling loop, `StartCoroutine`, the stack-trace lookup of the callee (the callee is a parameter passed through), and whether the form's header table aliases the form's own. A null `authToken` is not modelled (the parameter defaults to "").
- The JSON parsers are two opaque functions. Only the choice between them (the body starts with '[') is modelled. Culture-sensitive `StartsWith` is modelled as a first-character test.
- Logging and the commented-out code at the end of the savegame list view.
- The reason phrases are Python 2's `httplib.responses` table, which the REST framework's `status_text` reads. Only the code matters to the client.

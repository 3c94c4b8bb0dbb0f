/**
 * The user route of the API server (apps/api/src/routes/user.route.ts):
 * `GET /` answers 401 without an `Authorization` header; with one, it takes
 * the header's second space-separated field as the user id (no scheme is
 * checked) and answers with fixed profile fields.
 */
module UserRoute {
  import opened Wrappers
  import Strings

  /** The JSON answer; the profile fields are present only on success. */
  datatype UserBody = UserBody(
    status: int, message: string, id: Option<string>,
    firstName: Option<string>, lastName: Option<string>, email: Option<string>)

  const DefaultUserId: string := "user-123"

  /** The user id in a present header: its second field, or the default when that is absent or empty. */
  function UserId(header: string): (id: string)
    ensures id != ""
  {
    var parts := Strings.Split(header, ' ');
    if |parts| > 1 && parts[1] != "" then parts[1] else DefaultUserId
  }

  /** The handler for the header value (`undefined` when absent); its HTTP status equals `status`. */
  function GetUser(authorization: Option<string>): (r: UserBody)
    ensures r.status == 401 || r.status == 200
    ensures r.status == 401 <==> authorization.None? || authorization == Some("")
    ensures r.status == 401 ==> r.id.None? && r.email.None?
    ensures r.status == 200 ==> r.id == Some(UserId(authorization.value)) && r.id.value != ""
  {
    if authorization.None? || authorization.value == "" then
      UserBody(401, "Usuario no autenticado", None, None, None, None)
    else
      UserBody(200, "Usuario autenticado", Some(UserId(authorization.value)),
               Some("Usuario"), Some("Ejemplo"), Some("usuario@ejemplo.com"))
  }

  /** Without a header the answer is 401 with a null id; with any header it is 200 with an id and the fixed profile. */
  lemma AnyHeaderAccepted(authorization: Option<string>)
    ensures GetUser(authorization).status == 401 <==> authorization.None? || authorization == Some("")
    ensures GetUser(authorization).status == 401 ==> GetUser(authorization).id.None?
    ensures GetUser(authorization).status != 401 ==>
      GetUser(authorization).status == 200 && GetUser(authorization).id.Some? &&
      GetUser(authorization).email == Some("usuario@ejemplo.com")
  {
  }

  /** For "<scheme> <id>", with no space in the scheme, the id is that second field whatever the scheme. */
  lemma {:induction false} SecondFieldIsId(scheme: string, id: string, rest: string)
    requires ' ' !in scheme && ' ' !in id && id != ""
    ensures UserId(scheme + " " + id) == id
    ensures UserId(scheme + " " + id + " " + rest) == id
  {
    Strings.SplitAt(scheme, ' ', id);
    Strings.SplitWithout(id, ' ');
    assert scheme + " " + id == scheme + [' '] + id;
    Strings.SplitAt(scheme, ' ', id + " " + rest);
    Strings.SplitAt(id, ' ', rest);
    assert scheme + " " + id + " " + rest == scheme + [' '] + (id + [' '] + rest);
  }

  /** A header without a space, or one whose second field is empty ("Bearer "), gets the default id. */
  lemma {:induction false} DefaultIdWhenMissing(word: string, rest: string)
    requires ' ' !in word
    ensures UserId(word) == DefaultUserId
    ensures UserId(word + " ") == DefaultUserId
    ensures UserId(word + "  " + rest) == DefaultUserId
  {
    Strings.SplitAt(word, ' ', []);
    assert word + " " == word + [' '] + [];
    Strings.SplitWithout(word, ' ');
    var h := word + "  " + rest;
    assert h == word + [' '] + ([' '] + rest);
    Strings.SplitAt(word, ' ', [' '] + rest);
    Strings.SplitAt([], ' ', rest);
    assert [] + [' '] + rest == [' '] + rest;
  }
}

/** The session store (`AuthContext`): the stored bearer token, the signed-in
    user and its loading flag, and the request bodies its operations build. */
module Auth {
  import opened Api
  import opened Json
  import UrlEncoding

  /** The `localStorage` key of the bearer token. */
  const TokenKey := "token"

  /** A `FormData` entry's value: a file as a blob, anything else as text. */
  datatype FormValue = Text(text: string) | Blob(file: string)

  /** `FormData` entries in append order. */
  type FormData = seq<(string, FormValue)>

  /** `URLSearchParams` entries in append order. */
  type SearchParams = seq<(string, string)>

  /** A request the store sends; the `authorization` fields are the
      `Authorization` header. A login request keeps its `URLSearchParams`;
      the body on the wire is `LoginBody(params)`. */
  datatype Request =
    | GetMe(authorization: string)
    | PostLogin(params: SearchParams)
    | PostRegister(form: FormData)
    | PutProfile(form: FormData, authorization: string)

  /** How an async operation settles: with its return value, or by
      rethrowing the request error (its server message kept). */
  datatype Outcome<T> = Returned(value: T) | Thrown(message: Option<string>)

  /** `Bearer ${token}` for the result of `localStorage.getItem("token")`. */
  function Bearer(token: Option<string>): string {
    "Bearer " + (if token.Some? then token.value else "null")
  }

  /** The `URLSearchParams` that `login` sends. */
  function LoginParams(matricNumber: string, password: string): SearchParams {
    [("grant_type", "password"), ("username", matricNumber), ("password", password)]
  }

  /** `formData.toString()`: the body `login` posts for a `PostLogin(params)`. */
  function LoginBody(params: SearchParams): string {
    UrlEncoding.Serialize(params)
  }

  /** The urlencoded login body hands the server back exactly the grant type
      and the credentials typed in, whatever Unicode scalar values they contain. */
  lemma LoginBodyRoundTrip(matricNumber: string, password: string)
    ensures UrlEncoding.Parse(LoginBody(LoginParams(matricNumber, password)))
      == [("grant_type", "password"), ("username", matricNumber), ("password", password)]
  {
    UrlEncoding.ParseSerialize(LoginParams(matricNumber, password));
  }

  // ---------------------------------------------------------------------------
  // Multipart bodies

  /** The entry `formData.append(key, value)` adds. */
  function FormEntry(key: string, value: Value): (string, FormValue) {
    (key, if value.File? then Blob(value.name) else Text(ToText(value)))
  }

  /** The form holding one appended entry per entry of `entries`, in order. */
  function FormOf(entries: Object): (form: FormData)
    ensures |form| == |entries|
    ensures forall i :: 0 <= i < |entries| ==> form[i] == FormEntry(entries[i].0, entries[i].1)
  {
    if entries == [] then []
    else
      var last := entries[|entries| - 1];
      FormOf(entries[..|entries| - 1]) + [FormEntry(last.0, last.1)]
  }

  /** Appending one more entry appends one more form entry. */
  lemma FormOfAppend(entries: Object, key: string, value: Value)
    ensures FormOf(entries + [(key, value)]) == FormOf(entries) + [FormEntry(key, value)]
  {
    assert (entries + [(key, value)])[..|entries|] == entries;
  }

  /** The entries whose value is not `undefined`, in order. */
  function DefinedEntries(obj: Object): Object
  {
    if obj == [] then []
    else
      var last := obj[|obj| - 1];
      DefinedEntries(obj[..|obj| - 1]) + (if last.1 != Undefined then [last] else [])
  }

  /** An entry is kept exactly when it is in the object and not `undefined`. */
  lemma {:induction false} DefinedEntriesMembers(obj: Object)
    ensures forall e :: e in DefinedEntries(obj) <==> e in obj && e.1 != Undefined
  {
    if obj != [] {
      var init := obj[..|obj| - 1];
      DefinedEntriesMembers(init);
      assert obj == init + [obj[|obj| - 1]];
    }
  }

  /** The loop of `register`: every key is appended, whichever of the two
      identical branches it takes. */
  method RegisterForm(userData: Object) returns (form: FormData)
    ensures form == FormOf(userData)
  {
    form := [];
    var i := 0;
    while i < |userData|
      invariant 0 <= i <= |userData|
      invariant form == FormOf(userData[..i])
    {
      var (key, value) := userData[i];
      assert userData[..i + 1][..i] == userData[..i];
      if key == "profileImage" && value.File? {
        form := form + [FormEntry(key, value)];
      } else {
        form := form + [FormEntry(key, value)];
      }
      i := i + 1;
    }
    assert userData[..|userData|] == userData;
  }

  /** The loop of `updateProfile`: a key is appended when its value is a
      profile-image file or is not `undefined`. */
  method ProfileForm(userData: Object) returns (form: FormData)
    ensures form == FormOf(DefinedEntries(userData))
    ensures forall e :: e in userData && e.1 != Undefined ==> FormEntry(e.0, e.1) in form
    ensures forall i :: 0 <= i < |form| ==> exists e :: e in userData && e.1 != Undefined && form[i] == FormEntry(e.0, e.1)
  {
    form := [];
    var i := 0;
    while i < |userData|
      invariant 0 <= i <= |userData|
      invariant form == FormOf(DefinedEntries(userData[..i]))
    {
      var (key, value) := userData[i];
      assert userData[..i + 1] == userData[..i] + [(key, value)];
      assert userData[..i + 1][..i] == userData[..i];
      FormOfAppend(DefinedEntries(userData[..i]), key, value);
      if key == "profileImage" && value.File? {
        form := form + [FormEntry(key, value)];
      } else if value != Undefined {
        form := form + [FormEntry(key, value)];
      }
      i := i + 1;
    }
    assert userData[..|userData|] == userData;
    var defined := DefinedEntries(userData);
    DefinedEntriesMembers(userData);
    forall e | e in userData && e.1 != Undefined
      ensures FormEntry(e.0, e.1) in form
    {
      var k :| 0 <= k < |defined| && defined[k] == e;
      assert form[k] == FormEntry(e.0, e.1);
    }
    forall i | 0 <= i < |form|
      ensures exists e :: e in userData && e.1 != Undefined && form[i] == FormEntry(e.0, e.1)
    {
      assert defined[i] in defined;
    }
  }

  // ---------------------------------------------------------------------------
  // The store

  class AuthProvider {
    /** `localStorage`. */
    var storage: map<string, string>
    var user: Option<Object>
    var loading: bool
    /** Every request the store has sent, oldest first. */
    var requests: seq<Request>

    /** The provider as mounted, over whatever the browser has stored. */
    constructor (storage: map<string, string>)
      ensures this.storage == storage && user == None && loading && requests == []
    {
      this.storage := storage;
      user := None;
      loading := true;
      requests := [];
    }

    /** `localStorage.getItem("token")`. */
    function StoredToken(): Option<string>
      reads this
    {
      if TokenKey in storage then Some(storage[TokenKey]) else None
    }

    /** The stored token is truthy: present and not empty. */
    predicate HasToken()
      reads this
    {
      TokenKey in storage && storage[TokenKey] != ""
    }

    /** `checkAuthStatus` on mount, with `response` as the answer to
        `GET /auth/me`. Without a token no request is sent; a failed check
        drops the token. Loading ends either way. */
    method CheckAuthStatus(response: Response<Object>)
      modifies this
      ensures !loading
      ensures !old(HasToken()) ==> storage == old(storage) && user == old(user) && requests == old(requests)
      ensures old(HasToken()) ==> requests == old(requests) + [GetMe(Bearer(old(StoredToken())))]
      ensures old(HasToken()) && response.Ok? ==> user == Some(response.data) && storage == old(storage)
      ensures old(HasToken()) && response.Fail? ==> user == old(user) && storage == old(storage) - {TokenKey}
    {
      var token := StoredToken();
      if HasToken() {
        requests := requests + [GetMe(Bearer(token))];
        if response.Ok? {
          user := Some(response.data);
        } else {
          storage := storage - {TokenKey};
        }
      }
      loading := false;
    }

    /** `login`, with `response` as the answer to `POST /auth/login`. On
        success the token is stored and the user is the response without its
        `access_token`; on failure nothing changes and the error is rethrown. */
    method Login(matricNumber: string, password: string, response: Response<Object>) returns (r: Outcome<Object>)
      modifies this`storage, this`user, this`requests
      ensures requests == old(requests) + [PostLogin(LoginParams(matricNumber, password))]
      ensures response.Ok? ==>
        var userData := Without(response.data, "access_token");
        && storage == old(storage)[TokenKey := ToText(Get(response.data, "access_token"))]
        && user == Some(userData) && r == Returned(userData)
        && Get(userData, "access_token") == Undefined
        && forall key :: key != "access_token" ==> Get(userData, key) == Get(response.data, key)
      ensures response.Fail? ==> storage == old(storage) && user == old(user) && r == Thrown(response.message)
    {
      var formData: SearchParams := [];
      formData := formData + [("grant_type", "password")];
      formData := formData + [("username", matricNumber)];
      formData := formData + [("password", password)];
      assert formData == LoginParams(matricNumber, password);
      requests := requests + [PostLogin(formData)];
      if response.Fail? {
        return Thrown(response.message);
      }
      var userData := Without(response.data, "access_token");
      storage := storage[TokenKey := ToText(Get(response.data, "access_token"))];
      user := Some(userData);
      WithoutKey(response.data, "access_token");
      r := Returned(userData);
    }

    /** `register`, with `response` as the answer to `POST /auth/register`:
        sends every field and touches neither token nor user. */
    method Register(userData: Object, response: Response<Object>) returns (r: Outcome<Object>)
      modifies this`requests
      ensures requests == old(requests) + [PostRegister(FormOf(userData))]
      ensures response.Ok? ==> r == Returned(response.data)
      ensures response.Fail? ==> r == Thrown(response.message)
    {
      var form := RegisterForm(userData);
      requests := requests + [PostRegister(form)];
      r := if response.Ok? then Returned(response.data) else Thrown(response.message);
    }

    /** `logout`: drops the token and the user. */
    method Logout()
      modifies this`storage, this`user
      ensures storage == old(storage) - {TokenKey}
      ensures user == None
    {
      storage := storage - {TokenKey};
      user := None;
    }

    /** `updateProfile`, with `response` as the answer to
        `PUT /users/profile`: sends the defined fields; on success the user is
        the response, on failure it is unchanged and the error is rethrown. */
    method UpdateProfile(userData: Object, response: Response<Object>) returns (r: Outcome<Object>)
      modifies this`user, this`requests
      ensures requests == old(requests) + [PutProfile(FormOf(DefinedEntries(userData)), Bearer(StoredToken()))]
      ensures response.Ok? ==> user == Some(response.data) && r == Returned(response.data)
      ensures response.Fail? ==> user == old(user) && r == Thrown(response.message)
    {
      var token := StoredToken();
      var form := ProfileForm(userData);
      requests := requests + [PutProfile(form, Bearer(token))];
      if response.Ok? {
        user := Some(response.data);
        r := Returned(response.data);
      } else {
        r := Thrown(response.message);
      }
    }
  }

  /** A stale token: the check fails, the token is dropped, nobody is signed
      in, and the next mount sends no request at all. */
  method StaleTokenSession() returns (signedIn: bool, stored: bool, sent: nat, sentAfterReload: nat)
    ensures !signedIn && !stored && sent == 1 && sentAfterReload == 0
  {
    var auth := new AuthProvider(map[TokenKey := "expired"]);
    auth.CheckAuthStatus(Fail(Some("Invalid token")));
    signedIn, stored, sent := auth.user.Some?, TokenKey in auth.storage, |auth.requests|;
    var reloaded := new AuthProvider(auth.storage);
    reloaded.CheckAuthStatus(Fail(None));
    sentAfterReload := |reloaded.requests|;
  }
}

/**
 * The decision rules of `CheckService` (backend/src/check/check.service.ts):
 * the Yorkie auth-webhook check and the name-conflict check. The database,
 * the JWT verifier, `slugify` and the clock are inputs: tables are sequences
 * of records, the verifier and the document lookup are functions.
 */
module CheckService {
  import opened Wrappers
  import opened Strings

  // ---------------------------------------------------------------------------
  // checkNameConflict

  datatype User = User(id: string, nickname: string)
  datatype Workspace = Workspace(id: string, title: string)

  /** The users whose nickname is the raw name or its slug (the first `findMany`). */
  function MatchingUsers(users: seq<User>, name: string, slug: string): (matched: seq<User>)
    ensures |matched| <= |users|
    ensures forall u :: u in matched <==> u in users && (u.nickname == name || u.nickname == slug)
  {
    if users == [] then []
    else
      var rest := MatchingUsers(users[1..], name, slug);
      assert users == [users[0]] + users[1..];
      if users[0].nickname == name || users[0].nickname == slug then [users[0]] + rest else rest
  }

  /** The workspaces whose title is the raw name or its slug (the second `findMany`). */
  function MatchingWorkspaces(workspaces: seq<Workspace>, name: string, slug: string): (matched: seq<Workspace>)
    ensures |matched| <= |workspaces|
    ensures forall w :: w in matched <==> w in workspaces && (w.title == name || w.title == slug)
  {
    if workspaces == [] then []
    else
      var rest := MatchingWorkspaces(workspaces[1..], name, slug);
      assert workspaces == [workspaces[0]] + workspaces[1..];
      if workspaces[0].title == name || workspaces[0].title == slug then [workspaces[0]] + rest else rest
  }

  /**
   * `checkNameConflict(name)`: a conflict exactly when some user's nickname or
   * some workspace's title equals the name or its lower-case slug.
   */
  function CheckNameConflict(name: string, slugify: string -> string, users: seq<User>, workspaces: seq<Workspace>): (conflict: bool)
    ensures conflict <==>
      (exists u :: u in users && (u.nickname == name || u.nickname == slugify(name)))
      || (exists w :: w in workspaces && (w.title == name || w.title == slugify(name)))
  {
    var slug := slugify(name);
    var userList := MatchingUsers(users, name, slug);
    var workspaceList := MatchingWorkspaces(workspaces, name, slug);
    assert |userList| > 0 ==> userList[0] in userList;
    assert |workspaceList| > 0 ==> workspaceList[0] in workspaceList;
    |userList| + |workspaceList| > 0
  }

  // ---------------------------------------------------------------------------
  // checkYorkie

  /** The `YorkieMethod` values that pass without looking at the token. */
  const ActivateClient: string := "ActivateClient"
  const DeactivateClient: string := "DeactivateClient"

  /** Token types. */
  const DefaultType: string := "default"
  const ShareType: string := "share"

  datatype Attribute = Attribute(key: string, verb: string)

  /** `CheckYorkieDto`: the token, the method name and the optional attribute list. */
  datatype CheckYorkieRequest = CheckYorkieRequest(token: string, methodName: string, attributes: Option<seq<Attribute>>)

  datatype CheckYorkieResponse = CheckYorkieResponse(allowed: bool, reason: string)

  /** What `checkYorkie` throws: the JWT does not verify (or is missing), or `attributes[0]` does not exist. */
  datatype CheckError = InvalidJwt | MissingAttribute

  /** A `documentSharingToken` row. */
  datatype SharingToken = SharingToken(token: string, documentId: string, expiredAt: Option<int>)

  /**
   * What the service consults: `jwtService.verify` (the `sub` claim, or None
   * when it throws), the `document.findFirst` lookup (whether a document with
   * the given Yorkie id is visible to the subject), the sharing-token table and
   * the current time.
   */
  datatype Backend = Backend(
    verify: string -> Option<string>,
    documentVisible: (Option<string>, string) -> bool,
    sharingTokens: seq<SharingToken>,
    now: int)

  /** `[type, token] = token.split(":")`: the type is the longest prefix without ':'. */
  function TokenType(token: string): (t: string)
    ensures t <= token && ':' !in t
    ensures |t| < |token| ==> token[|t|] == ':'
  {
    Split(token, ':')[0]
  }

  /** ... and the secret the second field, undefined exactly when there is no ':'. */
  function TokenSecret(token: string): (secret: Option<string>)
    ensures secret.Some? <==> ':' in token
    ensures secret.Some? ==> ':' !in secret.value
  {
    var fields := Split(token, ':');
    if |fields| > 1 then Some(fields[1]) else None
  }

  /** The type and secret are the first two fields; anything after a second ':' is dropped. */
  lemma TokenFields(kind: string, secret: string, extra: string)
    requires ':' !in kind && ':' !in secret
    ensures TokenType(kind + [':'] + secret) == kind
    ensures TokenSecret(kind + [':'] + secret) == Some(secret)
    ensures TokenType(kind + [':'] + secret + [':'] + extra) == kind
    ensures TokenSecret(kind + [':'] + secret + [':'] + extra) == Some(secret)
  {
    SplitAfterSep(kind, secret, ':');
    SplitNoSep(secret, ':');
    assert Split(kind + [':'] + secret, ':') == [kind, secret];
    var longer := kind + [':'] + secret + [':'] + extra;
    assert longer == kind + [':'] + (secret + [':'] + extra);
    SplitAfterSep(kind, secret + [':'] + extra, ':');
    SplitAfterSep(secret, extra, ':');
    var fields := Split(longer, ':');
    assert fields == [kind] + ([secret] + Split(extra, ':'));
    assert fields[0] == kind && fields[1] == secret;
  }

  /** A token without ':' is all type and has no secret. */
  lemma TokenWithoutColon(token: string)
    requires ':' !in token
    ensures TokenType(token) == token && TokenSecret(token) == None
  {
    SplitNoSep(token, ':');
  }

  /** `attributes?.[0].key`: undefined without a list, a TypeError on an empty one. */
  function DocumentKey(attributes: Option<seq<Attribute>>): Result<Option<string>, CheckError> {
    match attributes
    case None => Success(None)
    case Some(list) => if |list| == 0 then Failure(MissingAttribute) else Success(Some(list[0].key))
  }

  predicate Matches(row: SharingToken, filter: Option<string>) {
    filter.None? || row.token == filter.value
  }

  /**
   * `documentSharingToken.findFirst({ where: { token } })`: the first row with
   * that token; an undefined token filters nothing, as in Prisma.
   */
  function FindSharingToken(rows: seq<SharingToken>, filter: Option<string>): (r: Option<SharingToken>)
    ensures r.Some? <==> exists i :: 0 <= i < |rows| && Matches(rows[i], filter)
    ensures r.Some? ==> exists i :: (0 <= i < |rows| && rows[i] == r.value && Matches(rows[i], filter)
      && forall j :: 0 <= j < i ==> !Matches(rows[j], filter))
  {
    if rows == [] then None
    else if Matches(rows[0], filter) then Some(rows[0])
    else
      var r := FindSharingToken(rows[1..], filter);
      assert forall i :: 1 <= i < |rows| ==> rows[i] == rows[1..][i - 1];
      r
  }

  /** `expiredAt && moment().isAfter(expiredAt)`. */
  predicate Expired(row: SharingToken, now: int) {
    row.expiredAt.Some? && now > row.expiredAt.value
  }

  predicate PassesWithoutToken(methodName: string) {
    methodName == ActivateClient || methodName == DeactivateClient
  }

  /** The outcome of `checkYorkie` as the source writes it. */
  function DecideAsWritten(req: CheckYorkieRequest, backend: Backend): (r: Result<CheckYorkieResponse, CheckError>)
    ensures r.Failure? ==> !PassesWithoutToken(req.methodName) && TokenType(req.token) == DefaultType
    ensures !PassesWithoutToken(req.methodName) && TokenType(req.token) == ShareType && r.Success? && r.value.allowed
      ==> exists i :: 0 <= i < |backend.sharingTokens|
            && Matches(backend.sharingTokens[i], TokenSecret(req.token)) && !Expired(backend.sharingTokens[i], backend.now)
  {
    if PassesWithoutToken(req.methodName) then
      Success(CheckYorkieResponse(true, "Pass " + req.methodName))
    else if TokenType(req.token) == DefaultType then
      match TokenSecret(req.token)
      case None => Failure(InvalidJwt)
      case Some(secret) =>
        match backend.verify(secret)
        case None => Failure(InvalidJwt)
        case Some(sub) =>
          match DocumentKey(req.attributes)
          case Failure(e) => Failure(e)
          case Success(key) => Success(CheckYorkieResponse(backend.documentVisible(key, sub), ""))
    else if TokenType(req.token) == ShareType then
      var found := FindSharingToken(backend.sharingTokens, TokenSecret(req.token));
      Success(CheckYorkieResponse(found.Some? && !Expired(found.value, backend.now), ""))
    else
      Success(CheckYorkieResponse(false, ""))
  }

  /** The outcome of `checkYorkie`, with a share token that lacks its secret denied. */
  function Decide(req: CheckYorkieRequest, backend: Backend): (r: Result<CheckYorkieResponse, CheckError>)
    ensures r != DecideAsWritten(req, backend) ==>
      !PassesWithoutToken(req.methodName) && TokenType(req.token) == ShareType && TokenSecret(req.token).None?
      && r == Success(CheckYorkieResponse(false, ""))
    ensures !PassesWithoutToken(req.methodName) && TokenType(req.token) == ShareType && r.Success? && r.value.allowed
      ==> TokenSecret(req.token).Some?
  {
    if !PassesWithoutToken(req.methodName) && TokenType(req.token) == ShareType && TokenSecret(req.token).None? then
      Success(CheckYorkieResponse(false, ""))
    else
      DecideAsWritten(req, backend)
  }

  /**
   * As written, the bare token "share" is let through whenever the first
   * sharing-token row of any document has not expired, although no secret was
   * presented.
   */
  lemma ShareWithoutSecretIsAllowed(methodName: string, backend: Backend)
    requires !PassesWithoutToken(methodName)
    requires |backend.sharingTokens| > 0 && !Expired(backend.sharingTokens[0], backend.now)
    ensures DecideAsWritten(CheckYorkieRequest(ShareType, methodName, None), backend) == Success(CheckYorkieResponse(true, ""))
    ensures Decide(CheckYorkieRequest(ShareType, methodName, None), backend) == Success(CheckYorkieResponse(false, ""))
  {
    TokenWithoutColon(ShareType);
  }

  /**
   * With the correction a share token is let through only when it carries a
   * secret and the first row holding exactly that secret has not expired.
   */
  lemma StrictShareNeedsMatchingSecret(req: CheckYorkieRequest, backend: Backend)
    requires !PassesWithoutToken(req.methodName) && TokenType(req.token) == ShareType
    ensures Decide(req, backend).Success? && Decide(req, backend).value.reason == ""
    ensures Decide(req, backend).value.allowed <==>
      TokenSecret(req.token).Some? &&
      exists i :: 0 <= i < |backend.sharingTokens|
        && backend.sharingTokens[i].token == TokenSecret(req.token).value
        && (forall j :: 0 <= j < i ==> backend.sharingTokens[j].token != TokenSecret(req.token).value)
        && !Expired(backend.sharingTokens[i], backend.now)
  {
    var rows := backend.sharingTokens;
    var secret := TokenSecret(req.token);
    if secret.Some? {
      var found := FindSharingToken(rows, secret);
      if found.Some? {
        var i :| 0 <= i < |rows| && rows[i] == found.value && Matches(rows[i], secret)
          && forall j :: 0 <= j < i ==> !Matches(rows[j], secret);
        forall k | 0 <= k < |rows| && rows[k].token == secret.value
          && (forall j :: 0 <= j < k ==> rows[j].token != secret.value)
          ensures k == i
        {
          assert Matches(rows[k], secret);
          assert rows[i].token == secret.value;
        }
      } else {
        forall k | 0 <= k < |rows|
          ensures rows[k].token != secret.value
        {
          assert !Matches(rows[k], secret);
        }
      }
    }
  }

  /** ActivateClient and DeactivateClient pass with reason "Pass <method>", whatever the token. */
  lemma PassMethodsIgnoreToken(req: CheckYorkieRequest, token: string, backend: Backend, other: Backend)
    requires PassesWithoutToken(req.methodName)
    ensures Decide(req, backend) == Success(CheckYorkieResponse(true, "Pass " + req.methodName))
    ensures Decide(req.(token := token), other) == Decide(req, backend)
  {
  }

  /**
   * A "default" token fails when its secret is missing or does not verify, or
   * when the attribute list is empty; otherwise it is allowed exactly when the
   * document lookup finds a record.
   */
  lemma DefaultAllowedIffDocumentFound(req: CheckYorkieRequest, backend: Backend)
    requires !PassesWithoutToken(req.methodName) && TokenType(req.token) == DefaultType
    ensures var secret := TokenSecret(req.token);
      && (secret.None? ==> Decide(req, backend) == Failure(InvalidJwt))
      && (secret.Some? && backend.verify(secret.value).None? ==> Decide(req, backend) == Failure(InvalidJwt))
      && (secret.Some? && backend.verify(secret.value).Some? ==>
            match DocumentKey(req.attributes)
            case Failure(e) => Decide(req, backend) == Failure(e)
            case Success(key) =>
              (Decide(req, backend)
                 == Success(CheckYorkieResponse(backend.documentVisible(key, backend.verify(secret.value).value), ""))))
  {
  }

  /** Tokens of any other type are denied, with an empty reason. */
  lemma OtherTypesDenied(req: CheckYorkieRequest, backend: Backend)
    requires !PassesWithoutToken(req.methodName)
    requires TokenType(req.token) != DefaultType && TokenType(req.token) != ShareType
    ensures Decide(req, backend) == Success(CheckYorkieResponse(false, ""))
  {
  }

  /** Every answer other than the two pass methods' has an empty reason; the pass methods are always allowed. */
  lemma ReasonOnlyForPassMethods(req: CheckYorkieRequest, backend: Backend)
    ensures Decide(req, backend).Success? && Decide(req, backend).value.reason != "" ==>
      PassesWithoutToken(req.methodName) && Decide(req, backend).value.allowed
  {
  }

  /**
   * `checkYorkie`: `reason` and `allowed` start empty and false and are
   * overwritten branch by branch; an exception of the source is a Failure.
   */
  method CheckYorkie(req: CheckYorkieRequest, backend: Backend) returns (r: Result<CheckYorkieResponse, CheckError>)
    ensures r == Decide(req, backend)
  {
    var reason := "";
    var allowed := false;
    var fields := Split(req.token, ':');
    var tokenType := fields[0];
    var token := if |fields| > 1 then Some(fields[1]) else None;

    if req.methodName == ActivateClient || req.methodName == DeactivateClient {
      allowed := true;
      reason := "Pass " + req.methodName;
    } else {
      if tokenType == DefaultType {
        if token.None? {
          return Failure(InvalidJwt);
        }
        var sub := backend.verify(token.value);
        if sub.None? {
          return Failure(InvalidJwt);
        }
        var key: Option<string> := None;
        if req.attributes.Some? {
          if |req.attributes.value| == 0 {
            return Failure(MissingAttribute);
          }
          key := Some(req.attributes.value[0].key);
        }
        allowed := backend.documentVisible(key, sub.value);
      } else if tokenType == ShareType && token.Some? {
        var documentSharingToken := FindSharingToken(backend.sharingTokens, token);
        allowed := documentSharingToken.Some?;
        if documentSharingToken.Some? && Expired(documentSharingToken.value, backend.now) {
          allowed := false;
        }
      }
    }
    r := Success(CheckYorkieResponse(allowed, reason));
  }
}

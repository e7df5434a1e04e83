/** The `protectRoute` middleware and the `checkAuth` controller of
    server/middleware/auth.js. The header gate is a case-sensitive, simplified form of the
    Authorization header of section 2.1 of RFC 6750 ("Bearer" SP b64token). Token
    verification and the user lookup are given as oracles: what `jwt.verify` and
    `User.findById(…).select("-password")` would answer for the inputs they are shown. */
module Auth {
  import opened Wrappers
  import opened UserModel

  const BearerPrefix: string := "Bearer "

  const NoTokenProvided: string := "No token provided"
  const InvalidToken: string := "Invalid or expired token"
  const UserNotFound: string := "User not found"

  predicate StartsWith(s: string, prefix: string)
  {
    |prefix| <= |s| && s[..|prefix|] == prefix
  }

  // ---------------------------------------------------------------- String.prototype.split

  /** JavaScript's `s.split(sep)` for a one-character separator: every occurrence of `sep`
      cuts, so neighbouring separators give an empty field and there is always one field. */
  function Split(s: string, sep: char): (parts: seq<string>)
    ensures |parts| >= 1
    ensures forall i :: 0 <= i < |parts| ==> sep !in parts[i]
  {
    if s == [] then [""]
    else
      var rest := Split(s[1..], sep);
      if s[0] == sep then [""] + rest
      else [[s[0]] + rest[0]] + rest[1..]
  }

  /** JavaScript's `parts.join(sep)`. */
  function Join(parts: seq<string>, sep: char): string
  {
    if parts == [] then ""
    else if |parts| == 1 then parts[0]
    else parts[0] + [sep] + Join(parts[1..], sep)
  }

  /** Splitting loses nothing: joining the fields back with the separator gives `s`. */
  lemma {:induction false} JoinSplit(s: string, sep: char)
    ensures Join(Split(s, sep), sep) == s
  {
    if s != [] {
      var rest := Split(s[1..], sep);
      JoinSplit(s[1..], sep);
      if s[0] != sep {
        var parts := Split(s, sep);
        assert parts[1..] == rest[1..];
        if |rest| == 1 {
          assert parts == [[s[0]] + rest[0]];
        } else {
          assert Join(rest, sep) == rest[0] + [sep] + Join(rest[1..], sep);
        }
      }
    }
  }

  /** A word without the separator, then the separator: the word is the first field and
      the rest splits on its own. */
  lemma {:induction false} SplitAfterWord(w: string, rest: string, sep: char)
    requires sep !in w
    ensures Split(w + [sep] + rest, sep) == [w] + Split(rest, sep)
  {
    if w != [] {
      SplitAfterWord(w[1..], rest, sep);
      assert (w + [sep] + rest)[1..] == w[1..] + [sep] + rest;
      assert [w[0]] + w[1..] == w;
    } else {
      assert w + [sep] + rest == [sep] + rest;
    }
  }

  /** The first field of a split is the longest prefix free of the separator. */
  lemma {:induction false} FirstFieldIsPrefix(s: string, sep: char)
    ensures Split(s, sep)[0] <= s
    ensures |Split(s, sep)[0]| < |s| ==> s[|Split(s, sep)[0]|] == sep
  {
    if s != [] {
      FirstFieldIsPrefix(s[1..], sep);
    }
  }

  // ---------------------------------------------------------------- protectRoute

  /** `authHeader` is truthy and starts with exactly "Bearer " (messageController's routes
      are gated by this test, auth.js:10). */
  predicate HasBearerHeader(authHeader: Option<string>)
  {
    Truthy(authHeader) && StartsWith(authHeader.value, BearerPrefix)
  }

  /** `authHeader.split(" ")[1]`: the text after "Bearer " up to the next space; it may be
      empty. */
  function BearerToken(header: string): (token: string)
    requires StartsWith(header, BearerPrefix)
    ensures token <= header[|BearerPrefix|..]
    ensures ' ' !in token
    ensures |token| < |header| - |BearerPrefix| ==> header[|BearerPrefix| + |token|] == ' '
  {
    var rest := header[|BearerPrefix|..];
    assert header == "Bearer" + [' '] + rest;
    SplitAfterWord("Bearer", rest, ' ');
    FirstFieldIsPrefix(rest, ' ');
    Split(header, ' ')[1]
  }

  /** For a header of the RFC's shape, "Bearer " and a token without spaces, the middleware
      takes exactly that token. */
  lemma {:induction false} BearerTokenOfWellFormedHeader(t: string)
    requires ' ' !in t
    ensures StartsWith(BearerPrefix + t, BearerPrefix)
    ensures BearerToken(BearerPrefix + t) == t
  {
    var header := BearerPrefix + t;
    assert header[|BearerPrefix|..] == t;
  }

  /** Extra words are ignored and a doubled space gives the empty token. */
  lemma BearerTokenExamples()
    ensures BearerToken("Bearer a b") == "a"
    ensures BearerToken("Bearer  x") == ""
  {
    SplitAfterWord("Bearer", "a b", ' ');
    SplitAfterWord("a", "b", ' ');
    assert "Bearer a b" == "Bearer" + [' '] + "a b";
    assert "a b" == "a" + [' '] + "b";
    SplitAfterWord("Bearer", " x", ' ');
    SplitAfterWord("", "x", ' ');
    assert "Bearer  x" == "Bearer" + [' '] + " x";
    assert " x" == "" + [' '] + "x";
  }

  /** What `jwt.verify(token, secret)` did: threw, or returned a payload whose `id` may be
      absent. */
  datatype Decoded = VerifyThrew | Payload(id: Option<string>)

  /** What `User.findById(id).select("-password")` did: threw, found nothing, or found a user. */
  datatype Lookup = LookupThrew | NoUser | Found(user: PublicUser)

  /** A response with a status and message (and `next` not called), or `req.user` set and
      `next` called once with no response sent. */
  datatype AuthOutcome = Reply(status: nat, message: string) | CallNext(user: PublicUser)

  /** `protectRoute`: only a request whose bearer token verifies and whose decoded id names
      an existing user reaches the handler, and it reaches it with that user. */
  function ProtectRoute(authHeader: Option<string>, verify: string -> Decoded,
                        findById: Option<string> -> Lookup): (r: AuthOutcome)
    ensures r.CallNext? ==>
      && HasBearerHeader(authHeader)
      && verify(BearerToken(authHeader.value)).Payload?
      && findById(verify(BearerToken(authHeader.value)).id) == Found(r.user)
    ensures r.Reply? ==> r in {Reply(401, NoTokenProvided), Reply(401, InvalidToken), Reply(404, UserNotFound)}
    ensures r == Reply(401, NoTokenProvided) <==> !HasBearerHeader(authHeader)
  {
    if authHeader.None? || authHeader.value == "" || !StartsWith(authHeader.value, BearerPrefix) then
      Reply(401, NoTokenProvided)
    else
      var token := BearerToken(authHeader.value);
      match verify(token)
      case VerifyThrew => Reply(401, InvalidToken)
      case Payload(id) =>
        match findById(id)
        case LookupThrew => Reply(401, InvalidToken)
        case NoUser => Reply(404, UserNotFound)
        case Found(user) => CallNext(user)
  }

  /** With a bearer header, a throw from verification or from the lookup gives 401 "Invalid
      or expired token", a lookup that finds no user gives 404, and a found user is passed
      on. */
  lemma ProtectRouteAfterGate(authHeader: Option<string>, verify: string -> Decoded,
                              findById: Option<string> -> Lookup)
    requires HasBearerHeader(authHeader)
    ensures var decoded := verify(BearerToken(authHeader.value));
      var r := ProtectRoute(authHeader, verify, findById);
      && (decoded.VerifyThrew? ==> r == Reply(401, InvalidToken))
      && (decoded.Payload? && findById(decoded.id).LookupThrew? ==> r == Reply(401, InvalidToken))
      && (decoded.Payload? && findById(decoded.id).NoUser? ==> r == Reply(404, UserNotFound))
      && (decoded.Payload? && findById(decoded.id).Found? ==> r == CallNext(findById(decoded.id).user))
  {
  }

  /** The prefix test is case-sensitive and needs the space: these are all refused. */
  lemma GateIsCaseSensitive(verify: string -> Decoded, findById: Option<string> -> Lookup)
    ensures ProtectRoute(Some("bearer abc"), verify, findById) == Reply(401, NoTokenProvided)
    ensures ProtectRoute(Some("Bearer"), verify, findById) == Reply(401, NoTokenProvided)
    ensures ProtectRoute(Some(""), verify, findById) == Reply(401, NoTokenProvided)
    ensures ProtectRoute(None, verify, findById) == Reply(401, NoTokenProvided)
  {
    assert !StartsWith("bearer abc", BearerPrefix) by {
      assert "bearer abc"[0] != BearerPrefix[0];
    }
  }

  // ---------------------------------------------------------------- checkAuth

  datatype CheckAuthResponse = CheckAuthResponse(success: bool, user: PublicUser)

  /** `checkAuth` echoes the user the middleware attached, unchanged. */
  function CheckAuth(user: PublicUser): (r: CheckAuthResponse)
    ensures r.success && r.user == user
  {
    CheckAuthResponse(true, user)
  }
}

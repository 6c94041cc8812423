/** The authentication middleware in front of the protected routes: it takes
    the token from the Authorization header, has it verified, and stores the
    caller's id and role on the request before handing it on. The header is
    read the way section 2.1 of RFC 6750 lays out `Bearer <token>`, except
    that the scheme word is never looked at. */
module AuthMiddleware {
  import opened Common

  const TokenNotProvided := "Token not provided"
  const InvalidToken := "Invalid token"

  /** The claims of an access token, as `login` signs them. */
  datatype Claims = Claims(userId: string, role: string)

  /** What the middleware stores on the request. */
  datatype AuthUser = AuthUser(userId: string, role: string)

  // ------------------------------------------------------------- header split

  /** `s.split(sep)`: the pieces between separators, empty ones included. */
  function Split(s: string, sep: char): (r: seq<string>)
    ensures |r| >= 1
    ensures forall k :: 0 <= k < |r| ==> sep !in r[k]
    decreases |s|
  {
    match IndexOf(s, sep)
    case None => [s]
    case Some(i) => [s[..i]] + Split(s[i + 1..], sep)
  }

  /** `fields.join(sep)`. */
  function Join(fields: seq<string>, sep: char): (r: string)
    requires |fields| >= 1
  {
    if |fields| == 1 then fields[0] else fields[0] + [sep] + Join(fields[1..], sep)
  }

  /** Joining the pieces of a split gives the string back. */
  lemma {:induction false} JoinSplit(s: string, sep: char)
    ensures Join(Split(s, sep), sep) == s
    decreases |s|
  {
    match IndexOf(s, sep)
    case None =>
    case Some(i) =>
      var fields := Split(s, sep);
      var tail := Split(s[i + 1..], sep);
      assert fields == [s[..i]] + tail;
      assert fields[1..] == tail;
      JoinSplit(s[i + 1..], sep);
      calc {
        Join(fields, sep);
        s[..i] + [sep] + Join(tail, sep);
        s[..i] + [sep] + s[i + 1..];
        { assert s[i] == sep; }
        s;
      }
  }

  /** Splitting a join of separator-free pieces gives the pieces back. */
  lemma {:induction false} SplitJoin(fields: seq<string>, sep: char)
    requires |fields| >= 1
    requires forall k :: 0 <= k < |fields| ==> sep !in fields[k]
    ensures Split(Join(fields, sep), sep) == fields
    decreases |fields|
  {
    var head := fields[0];
    if |fields| > 1 {
      var rest := fields[1..];
      var tail := Join(rest, sep);
      var s := head + [sep] + tail;
      assert Join(fields, sep) == s;
      FirstSeparator(head, sep, tail);
      assert s[|head| + 1..] == tail;
      assert s[..|head|] == head;
      assert forall k :: 0 <= k < |rest| ==> sep !in rest[k] by {
        forall k | 0 <= k < |rest| ensures sep !in rest[k] {
          assert rest[k] == fields[k + 1];
        }
      }
      SplitJoin(rest, sep);
      assert Split(s, sep) == [head] + rest;
      assert [head] + rest == fields;
    } else {
      assert Join(fields, sep) == head;
      assert IndexOf(head, sep).None?;
      assert fields == [head];
    }
  }

  /** The first separator of `head + [sep] + tail`, when `head` has none, is
      right after `head`. */
  lemma FirstSeparator(head: string, sep: char, tail: string)
    requires sep !in head
    ensures IndexOf(head + [sep] + tail, sep) == Some(|head|)
  {
    var s := head + [sep] + tail;
    assert s[|head|] == sep;
    forall k | 0 <= k < |head| ensures s[k] != sep {
      assert s[k] == head[k];
    }
  }

  /** The first piece of a split is everything before the first separator. */
  lemma SplitFirst(s: string, sep: char)
    ensures Split(s, sep)[0] == (match IndexOf(s, sep) case None => s case Some(i) => s[..i])
    ensures |Split(s, sep)| >= 2 <==> sep in s
  {
  }

  /** `req.headers['authorization']?.split(' ')[1]`: the second
      space-separated field of the header, present exactly when the header
      is there and has a space. */
  function HeaderToken(header: Option<string>): (r: Option<string>)
    ensures r.Some? <==> header.Some? && ' ' in header.value
  {
    match header
    case None => None
    case Some(h) =>
      var fields := Split(h, ' ');
      SplitFirst(h, ' ');
      if |fields| >= 2 then Some(fields[1]) else None
  }

  /** The token is the text after the first space up to the next space;
      what comes before the first space is ignored. */
  lemma TokenAfterFirstSpace(h: string)
    requires ' ' in h
    ensures var rest := h[IndexOf(h, ' ').value + 1..];
      HeaderToken(Some(h)) == Some(match IndexOf(rest, ' ') case None => rest case Some(j) => rest[..j])
  {
    SplitFirst(h, ' ');
    SplitFirst(h[IndexOf(h, ' ').value + 1..], ' ');
  }

  /** A field without a separator, then the separator: the split starts
      with that field and goes on with the split of the rest. */
  lemma SplitAfterField(field: string, sep: char, after: string)
    requires sep !in field
    ensures Split(field + [sep] + after, sep) == [field] + Split(after, sep)
  {
    var h := field + [sep] + after;
    FirstSeparator(field, sep, after);
    assert h[..|field|] == field && h[|field| + 1..] == after;
  }

  /** The first field of `field + tail`, when the tail is empty or starts
      with the separator, is `field`. */
  lemma FirstField(field: string, sep: char, tail: string)
    requires sep !in field
    requires tail == [] || tail[0] == sep
    ensures Split(field + tail, sep)[0] == field
  {
    var s := field + tail;
    if tail == [] {
      assert s == field;
      assert IndexOf(s, sep).None?;
    } else {
      assert s == field + [sep] + tail[1..];
      FirstSeparator(field, sep, tail[1..]);
      assert s[..|field|] == field;
    }
    SplitFirst(s, sep);
  }

  /** Whatever the scheme word, the field after the first space is the
      token, whatever follows it from the next space on. */
  lemma SchemeNotChecked(scheme: string, token: string, tail: string)
    requires ' ' !in scheme && ' ' !in token
    requires tail == [] || tail[0] == ' '
    ensures HeaderToken(Some(scheme + [' '] + token + tail)) == Some(token)
  {
    var h := scheme + [' '] + (token + tail);
    assert scheme + [' '] + token + tail == h;
    SplitAfterField(scheme, ' ', token + tail);
    FirstField(token, ' ', tail);
    assert Split(h, ' ')[1] == token;
  }

  /** The usual `Bearer abc` header gives `abc`. */
  lemma BearerHeader()
    ensures HeaderToken(Some("Bearer abc")) == Some("abc")
  {
    SchemeNotChecked("Bearer", "abc", "");
    assert "Bearer" + [' '] + "abc" + "" == "Bearer abc";
  }

  /** Two spaces after the scheme make the token field empty, which the
      middleware treats as no token at all. */
  lemma DoubleSpaceGivesEmptyToken(token: string)
    requires ' ' !in token
    ensures HeaderToken(Some("Bearer  " + token)) == Some("")
  {
    SchemeNotChecked("Bearer", "", " " + token);
    assert "Bearer" + [' '] + "" + (" " + token) == "Bearer  " + token;
  }

  // ----------------------------------------------------------------- requests

  /** The parts of an Express request the middleware reads and writes.
      `nextCalls` counts the calls to `next()`. */
  class Request {
    var authorization: Option<string>
    var user: Option<AuthUser>
    var nextCalls: nat

    constructor (authorization: Option<string>)
      ensures this.authorization == authorization && user == None && nextCalls == 0
    {
      this.authorization := authorization;
      user := None;
      nextCalls := 0;
    }
  }

  /** `use`: refuse a missing or empty token and a token `verify` rejects,
      both with 401; otherwise copy the id and role claims onto the request
      and call `next()` once. `verify` is the JWT check with the access-token
      secret. */
  method Use(req: Request, verify: string -> Option<Claims>) returns (r: Result<(), Failure>)
    modifies req
    ensures req.authorization == old(req.authorization)
    ensures var t := HeaderToken(old(req.authorization));
      && (t.None? || t.value == "" ==> r == Failure(HttpFailure(Unauthorized, TokenNotProvided)))
      && (t.Some? && t.value != "" && verify(t.value).None? ==>
            r == Failure(HttpFailure(Unauthorized, InvalidToken)))
      && (r.Success? <==> t.Some? && t.value != "" && verify(t.value).Some?)
      && (r.Failure? ==> req.user == old(req.user) && req.nextCalls == old(req.nextCalls))
      && (r.Success? ==>
            && req.user == Some(AuthUser(verify(t.value).value.userId, verify(t.value).value.role))
            && req.nextCalls == old(req.nextCalls) + 1)
  {
    var token := HeaderToken(req.authorization);
    if token.None? || token.value == "" {
      r := Failure(HttpFailure(Unauthorized, TokenNotProvided));
      return;
    }
    var decoded := verify(token.value);
    if decoded.None? {
      r := Failure(HttpFailure(Unauthorized, InvalidToken));
      return;
    }
    req.user := Some(AuthUser(decoded.value.userId, decoded.value.role));
    req.nextCalls := req.nextCalls + 1;
    r := Success(());
  }
}

/** The authentication middleware (server/middleware/auth.js): take the bearer token out of
    the Authorization header, have it verified, and either answer or pass the decoded
    claims on to the route.

    Token verification (a signed-token library keyed by a server secret) is a parameter:
    it maps a token to its claims, or to `None` when the token is forged or expired. */
module Auth {
  import opened Query

  /** The decoded token payload the routes read; `userId` may be absent from it. */
  datatype Claims = Claims(userId: Option<int>)

  /** What a middleware does: answer with a status and `{ error }`, or call the next
      handler with `req.user` set. */
  datatype Verdict = Deny(status: nat, message: string) | Next(user: Claims)

  /** JavaScript `s.split(' ')`: the maximal runs between single spaces, empty runs
      included, and always at least one field. */
  function Split(s: string): (r: seq<string>)
    ensures |r| >= 1
    ensures forall i :: 0 <= i < |r| ==> ' ' !in r[i]
    ensures ' ' !in s ==> r == [s]
  {
    if s == [] then [""]
    else if s[0] == ' ' then [""] + Split(s[1..])
    else
      var rest := Split(s[1..]);
      assert ' ' !in s ==> ' ' !in s[1..] && s == [s[0]] + s[1..];
      [[s[0]] + rest[0]] + rest[1..]
  }

  /** `fields.join(' ')`. */
  function Join(fields: seq<string>): string
    requires |fields| >= 1
  {
    fields[0] + Spaced(fields[1..])
  }

  /** Each field preceded by one space. */
  function Spaced(fields: seq<string>): string
  {
    if fields == [] then "" else (" " + fields[0]) + Spaced(fields[1..])
  }

  /** With two fields or more, the join is the first field, a space, and the join of the rest. */
  lemma JoinCons(fields: seq<string>)
    requires |fields| >= 2
    ensures Join(fields) == fields[0] + " " + Join(fields[1..])
  {
    var rest := fields[1..];
    assert rest[1..] == fields[2..];
    calc {
      Join(fields);
      fields[0] + ((" " + rest[0]) + Spaced(rest[1..]));
      { ConcatAssoc(" ", rest[0], Spaced(rest[1..])); }
      fields[0] + (" " + Join(rest));
      { ConcatAssoc(fields[0], " ", Join(rest)); }
      fields[0] + " " + Join(rest);
    }
  }

  /** Splitting loses nothing: joining the fields back gives the header. */
  lemma {:induction false} JoinSplit(s: string)
    ensures Join(Split(s)) == s
  {
    if s != [] {
      JoinSplit(s[1..]);
      var rest := Split(s[1..]);
      if s[0] == ' ' {
        var g := [""] + rest;
        assert Split(s) == g && g[1..] == rest;
        calc {
          Join(g);
          "" + Spaced(rest);
          (" " + rest[0]) + Spaced(rest[1..]);
          { ConcatAssoc(" ", rest[0], Spaced(rest[1..])); }
          " " + Join(rest);
        }
        assert s == " " + s[1..];
      } else {
        var g := [[s[0]] + rest[0]] + rest[1..];
        assert Split(s) == g && g[0] == [s[0]] + rest[0] && g[1..] == rest[1..];
        calc {
          Join(g);
          ([s[0]] + rest[0]) + Spaced(rest[1..]);
          { ConcatAssoc([s[0]], rest[0], Spaced(rest[1..])); }
          [s[0]] + Join(rest);
        }
        assert s == [s[0]] + s[1..];
      }
    }
  }

  lemma ConcatAssoc(a: string, b: string, d: string)
    ensures (a + b) + d == a + (b + d)
  {
  }

  /** Fields without spaces are recovered by splitting their join. */
  lemma {:induction false} SplitJoin(fields: seq<string>)
    requires |fields| >= 1 && forall i :: 0 <= i < |fields| ==> ' ' !in fields[i]
    ensures Split(Join(fields)) == fields
  {
    if |fields| == 1 {
      assert Join(fields) == fields[0] + "";
      assert fields[0] + "" == fields[0];
    } else {
      SplitJoin(fields[1..]);
      JoinCons(fields);
      SplitPrefix(fields[0], Join(fields[1..]));
    }
  }

  /** A space-free word followed by a space and a tail splits into the word and the tail's fields. */
  lemma {:induction false} SplitPrefix(w: string, tail: string)
    requires ' ' !in w
    ensures Split(w + " " + tail) == [w] + Split(tail)
  {
    if w == [] {
      assert w + " " + tail == [' '] + tail;
      assert ([' '] + tail)[1..] == tail;
    } else {
      var s := w + " " + tail;
      assert s[0] == w[0] && s[1..] == w[1..] + " " + tail;
      assert ' ' !in w[1..] by {
        assert forall c :: c in w[1..] ==> c in w;
      }
      SplitPrefix(w[1..], tail);
      assert [w[0]] + w[1..] == w;
    }
  }

  /** `authHeader && authHeader.split(' ')[1]`: the second field, or nothing when the
      header is absent or empty or has no space. */
  function BearerToken(header: Option<string>): (r: Option<string>)
    ensures r.Some? ==> ' ' !in r.value
    ensures header.Some? && ' ' !in header.value ==> r.None?
  {
    if header.None? || header.value == "" then None
    else
      var fields := Split(header.value);
      if |fields| >= 2 then Some(fields[1]) else None
  }

  /** The header a client sends, `Bearer <token>`, yields exactly that token. */
  lemma BearerTokenOf(scheme: string, token: string)
    requires ' ' !in scheme && ' ' !in token
    ensures BearerToken(Some(scheme + " " + token)) == Some(token)
  {
    SplitJoin([scheme, token]);
    JoinCons([scheme, token]);
    assert [scheme, token][1..] == [token];
    assert Join([token]) == token + "" == token;
  }

  /** `!token`: no token, or the empty one. */
  predicate NoToken(header: Option<string>)
  {
    BearerToken(header).None? || BearerToken(header).value == ""
  }

  /** `authenticateToken`: 401 without a token, 403 when verification fails, otherwise
      proceed with the decoded claims. */
  function AuthenticateToken(header: Option<string>, verify: string -> Option<Claims>): (r: Verdict)
    ensures NoToken(header) ==> r == Deny(401, "No token provided")
    ensures !NoToken(header) && verify(BearerToken(header).value).None? ==>
              r == Deny(403, "Invalid or expired token")
    ensures r.Next? <==> !NoToken(header) && verify(BearerToken(header).value).Some?
    ensures r.Next? ==> verify(BearerToken(header).value) == Some(r.user)
  {
    var token := BearerToken(header);
    if token.None? || token.value == "" then Deny(401, "No token provided")
    else
      match verify(token.value)
      case None => Deny(403, "Invalid or expired token")
      case Some(decoded) => Next(decoded)
  }

  /** A well-formed header proceeds exactly when its token verifies, and carries that
      token's claims. */
  lemma AuthenticateBearer(token: string, verify: string -> Option<Claims>)
    requires token != "" && ' ' !in token
    ensures AuthenticateToken(Some("Bearer " + token), verify) ==
              match verify(token)
              case Some(c) => Next(c)
              case None => Deny(403, "Invalid or expired token")
  {
    BearerTokenOf("Bearer", token);
    assert "Bearer" + " " + token == "Bearer " + token;
  }
}

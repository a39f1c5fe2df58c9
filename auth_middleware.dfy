/**
 * The `authenticate` middleware every resource router installs before its
 * routes. An absent or empty Authorization header is refused as a missing
 * token; otherwise the header is split at every space and its second piece
 * is handed to the token verifier. The first piece (the scheme) is never
 * looked at, and pieces after the second are ignored.
 *
 * Token verification is a parameter `verify`: `None` stands for the
 * verifier throwing (bad signature, expired, malformed, no token at all).
 */
module AuthMiddleware {
  import opened Http
  import opened Schemas

  const TokenMissing := "Token não fornecido"
  const TokenInvalid := "Token inválido"

  /** What the middleware decides: pass on with the decoded claims, or answer 401 with a message. */
  datatype Gate = Pass(user: Claims) | Deny(message: string)

  predicate NoSpace(s: string)
  {
    forall i :: 0 <= i < |s| ==> s[i] != ' '
  }

  /** `s.split(' ')`: the pieces between spaces, empty pieces kept; never an empty list. */
  function Split(s: string): (r: seq<string>)
    ensures |r| >= 1
    ensures forall k :: 0 <= k < |r| ==> NoSpace(r[k])
    ensures |r| == 1 <==> NoSpace(s)
  {
    if s == [] then [""]
    else
      var rest := Split(s[1..]);
      if s[0] == ' ' then [""] + rest
      else [[s[0]] + rest[0]] + rest[1..]
  }

  /** The pieces put back together, one space between each two. */
  function Join(pieces: seq<string>): string
    requires |pieces| >= 1
  {
    if |pieces| == 1 then pieces[0] else pieces[0] + " " + Join(pieces[1..])
  }

  /** Splitting loses nothing: joining the pieces gives the header back. */
  lemma {:induction false} JoinSplit(s: string)
    ensures Join(Split(s)) == s
  {
    if s != [] {
      JoinSplit(s[1..]);
      var rest := Split(s[1..]);
      if s[0] == ' ' {
        assert ([""] + rest)[1..] == rest;
      } else {
        var r := Split(s);
        assert r[1..] == rest[1..];
        if |rest| > 1 {
          assert Join(rest) == rest[0] + " " + Join(rest[1..]);
        }
      }
    }
  }

  /** A space-free prefix glues onto the first piece of what follows it. */
  lemma {:induction false} SplitConcat(w: string, t: string)
    requires NoSpace(w)
    ensures Split(w + t) == [w + Split(t)[0]] + Split(t)[1..]
  {
    if w != [] {
      SplitConcat(w[1..], t);
      assert (w + t)[1..] == w[1..] + t;
      assert [w[0]] + (w[1..] + Split(t)[0]) == w + Split(t)[0];
    } else {
      var r := Split(t);
      assert w + t == t && w + r[0] == r[0];
      assert r == [r[0]] + r[1..];
    }
  }

  /** Joining pieces without spaces and splitting again gives the same pieces. */
  lemma {:induction false} SplitJoin(pieces: seq<string>)
    requires |pieces| >= 1
    requires forall k :: 0 <= k < |pieces| ==> NoSpace(pieces[k])
    ensures Split(Join(pieces)) == pieces
  {
    if |pieces| == 1 {
      SplitConcat(pieces[0], "");
      assert pieces[0] + "" == pieces[0];
    } else {
      var tail := Join(pieces[1..]);
      SplitJoin(pieces[1..]);
      assert (" " + tail)[1..] == tail;
      assert Split(" " + tail) == [""] + pieces[1..];
      SplitConcat(pieces[0], " " + tail);
      assert pieces[0] + "" == pieces[0];
      assert Join(pieces) == pieces[0] + (" " + tail);
    }
  }

  /** `const [, token] = authHeader.split(' ')`: the second piece, absent when the header has no space. */
  function BearerToken(header: string): (t: Option<string>)
    ensures t.Some? <==> !NoSpace(header)
  {
    var pieces := Split(header);
    if |pieces| >= 2 then Some(pieces[1]) else None
  }

  /** `authenticate`. */
  function Authenticate(header: Option<string>, verify: string -> Option<Claims>): (g: Gate)
    ensures g.Deny? ==> g.message == TokenMissing || g.message == TokenInvalid
    ensures g == Deny(TokenMissing) <==> header.None? || header.value == ""
    ensures g.Pass? <==>
              header.Some? && header.value != "" && BearerToken(header.value).Some?
              && verify(BearerToken(header.value).value).Some?
    ensures g.Pass? ==> g.user == verify(BearerToken(header.value).value).value
  {
    if header.None? || header.value == "" then Deny(TokenMissing)
    else
      var token := BearerToken(header.value);
      if token.None? then Deny(TokenInvalid)
      else
        match verify(token.value)
        case None => Deny(TokenInvalid)
        case Some(claims) => Pass(claims)
  }

  /**
   * For a header of two or more space-separated pieces, the verdict depends
   * on the second piece alone: the scheme and any later pieces are ignored.
   */
  lemma SecondPieceDecides(pieces: seq<string>, verify: string -> Option<Claims>)
    requires |pieces| >= 2
    requires forall k :: 0 <= k < |pieces| ==> NoSpace(pieces[k])
    ensures Authenticate(Some(Join(pieces)), verify) ==
            if verify(pieces[1]).Some? then Pass(verify(pieces[1]).value) else Deny(TokenInvalid)
  {
    SplitJoin(pieces);
  }

  /**
   * A header made of any space-free word, one space and a token the verifier
   * accepts passes with that token's claims: `Bearer <token>` passes, and so
   * does any other scheme word, since the scheme is never checked.
   */
  lemma AnySchemePasses(scheme: string, token: string, verify: string -> Option<Claims>, c: Claims)
    requires NoSpace(scheme) && NoSpace(token)
    requires verify(token) == Some(c)
    ensures Authenticate(Some(scheme + " " + token), verify) == Pass(c)
  {
    SplitJoin([scheme, token]);
    assert Join([scheme, token]) == scheme + " " + token by {
      assert [scheme, token][1..] == [token];
    }
  }

  /** A header without a space is refused as an invalid token, even when the whole header is a token the verifier accepts. */
  lemma BareTokenRefused(header: string, verify: string -> Option<Claims>)
    requires header != "" && NoSpace(header)
    ensures Authenticate(Some(header), verify) == Deny(TokenInvalid)
  {
    SplitJoin([header]);
  }
}

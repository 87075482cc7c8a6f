/** Session claims: issuing a signed, time-bounded token and decoding it
    with the two failure kinds the handlers distinguish. Signing is
    abstract: a token is either the claims sealed with a key, or text that
    does not parse. Times are integer seconds. */
module Session {
  import opened Common

  /** `timedelta(minutes=10)`, in seconds. */
  const Lifetime: int := 600

  /** The JWT payload: id, email, role and the expiry time `exp`. */
  datatype Claims = Claims(id: int, email: string, role: string, exp: int)

  /** A serialized token: claims signed with a key, or something that is
      not a well-formed token at all. */
  datatype Jwt = Signed(claims: Claims, key: string) | Garbled(raw: string)

  /** `gen_jwt`: the claims expire ten minutes after `now`. */
  function GenJwt(id: int, email: string, role: string, now: int, key: string): (t: Jwt)
    ensures t.Signed? && t.key == key
    ensures t.claims.id == id && t.claims.email == email && t.claims.role == role
    ensures t.claims.exp == now + Lifetime
  {
    Signed(Claims(id, email, role, now + Lifetime), key)
  }

  /** `jwt.decode` followed by the handlers' `except` clauses: a bad
      signature or a malformed token gives "Invalid token", a valid
      signature past its expiry gives "Expired token". */
  function DecodeJwt(t: Jwt, key: string, now: int): (r: Result<Claims>)
    ensures r.Ok? <==> t.Signed? && t.key == key && now < t.claims.exp
    ensures r.Ok? ==> r.value == t.claims
    ensures r.Err? ==> r.status == 401
    ensures r == Err(401, "Expired token") <==> t.Signed? && t.key == key && t.claims.exp <= now
    ensures r == Err(401, "Invalid token") <==> !(t.Signed? && t.key == key)
  {
    match t
    case Garbled(_) => Err(401, "Invalid token")
    case Signed(c, k) =>
      if k != key then Err(401, "Invalid token")
      else if c.exp <= now then Err(401, "Expired token")
      else Ok(c)
  }

  /** Round trip: a token decoded with the key it was issued with, before
      its ten minutes are up, gives back the claims it was issued for. */
  lemma IssueThenDecode(id: int, email: string, role: string, issued: int, key: string, now: int)
    requires issued <= now < issued + Lifetime
    ensures DecodeJwt(GenJwt(id, email, role, issued, key), key, now)
            == Ok(Claims(id, email, role, issued + Lifetime))
  {
  }

  /** Once ten minutes have passed the token is reported expired, never
      malformed. */
  lemma ExpiredIsNotInvalid(id: int, email: string, role: string, issued: int, key: string, now: int)
    requires now >= issued + Lifetime
    ensures DecodeJwt(GenJwt(id, email, role, issued, key), key, now) == Err(401, "Expired token")
  {
  }
}

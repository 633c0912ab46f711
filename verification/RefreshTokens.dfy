// Access and refresh tokens (internal/auth/token_service.go): what a token's life span is, and that
// a refresh token is good for one use.
module RefreshTokens {
  import opened Wrappers

  const SECOND := 1_000_000_000
  const ACCESS_TTL := 15 * 60 * SECOND
  const REFRESH_TTL := 12 * 60 * 60 * SECOND

  const ACCESS := "access"
  const REFRESH := "refresh"

  // The claims of a token. A claim that is absent, or is not a string, is None.
  datatype Claims = Claims(
    admin: bool,
    tokenType: Option<string>,
    iss: Option<string>,
    jti: Option<string>,
    iat: Option<string>,
    exp: Option<string>,
    nbf: Option<string>)

  // Times are nanoseconds. A timestamp in the format of section 5.6 of RFC 3339, as it is written
  // here, has no fraction.
  function WholeSeconds(t: int): int {
    t / SECOND * SECOND
  }

  // PASETO v4.local encryption of JSON claims (key, claims, nonce) and decryption, and the
  // timestamp format.
  datatype Primitives = Primitives(
    seal: (Bytes, Claims, Bytes) -> string,
    open: (Bytes, string) -> Option<Claims>,
    formatTime: int -> string,
    parseTime: string -> Option<int>)
  {
    ghost predicate Valid() {
      && (forall key, claims, nonce :: open(key, seal(key, claims, nonce)) == Some(claims))
      && (forall t :: parseTime(formatTime(t)) == Some(WholeSeconds(t)))
    }
  }

  // `unique` says whether the table used_refresh_tokens refuses a jti it already has.
  datatype Config = Config(p: Primitives, key: Bytes, host: string, unique: bool)

  datatype Failure =
    | KeyUnreadable | Undecryptable | MissingExp | InvalidExp | Expired | WrongType | MissingJti | AlreadyUsed
    | DatabaseFault | MintFault

  // The circumstances of making one token. No jti stands for any failure on the way.
  datatype Mint = Mint(now: int, jti: Option<string>, nonce: Bytes)

  // ---------- One token ----------

  function Issued(c: Config, kind: string, m: Mint, jti: string): Claims {
    Claims(kind == ACCESS, Some(kind), Some(c.host), Some(jti), Some(c.p.formatTime(m.now)),
           Some(c.p.formatTime(m.now + Ttl(kind))), Some(c.p.formatTime(m.now)))
  }

  function Ttl(kind: string): int {
    if kind == ACCESS then ACCESS_TTL else REFRESH_TTL
  }

  function Token(c: Config, kind: string, m: Mint): Option<string> {
    if m.jti.None? then None else Some(c.p.seal(c.key, Issued(c, kind, m, m.jti.value), m.nonce))
  }

  function Validate(c: Config, token: string, kind: string, now: int): Result<Claims, Failure> {
    match c.p.open(c.key, token)
    case None => Result.Failure(Undecryptable)
    case Some(claims) =>
      if claims.exp.None? then Result.Failure(MissingExp)
      else
        var exp := c.p.parseTime(claims.exp.value);
        if exp.None? then Result.Failure(InvalidExp)
        else if now > exp.value then Result.Failure(Expired)
        else if claims.tokenType != Some(kind) then Result.Failure(WrongType)
        else Success(claims)
  }

  // A token made at t is valid, as the kind it is and no other, exactly until the last whole
  // second of its life. Nothing keeps it from being valid before t: nbf is never looked at.
  lemma TokenLife(c: Config, kind: string, m: Mint, asKind: string, now: int)
    requires c.p.Valid() && m.jti.Some?
    ensures Validate(c, Token(c, kind, m).value, asKind, now).Success?
        <==> kind == asKind && now <= WholeSeconds(m.now + Ttl(kind))
    ensures kind == asKind && now <= WholeSeconds(m.now + Ttl(kind)) ==>
              Validate(c, Token(c, kind, m).value, kind, now).value.jti == m.jti
  {
  }

  // So a token is never accepted after its lifetime and never refused for its age more than a
  // second before the end.
  lemma LifeIsAtMostASecondShort(c: Config, kind: string, m: Mint, now: int)
    requires c.p.Valid() && m.jti.Some?
    ensures now > m.now + Ttl(kind) ==> Validate(c, Token(c, kind, m).value, kind, now) == Result.Failure(Expired)
    ensures now <= m.now + Ttl(kind) - SECOND ==> Validate(c, Token(c, kind, m).value, kind, now).Success?
  {
  }

  // In nanoseconds: an access token made at t is good for 15 minutes, a refresh token for 12 hours,
  // each up to the last whole second of that.
  lemma AccessTokenLife(c: Config, m: Mint, now: int)
    requires c.p.Valid() && m.jti.Some?
    ensures Validate(c, Token(c, "access", m).value, "access", now).Success?
        <==> now <= (m.now + 900_000_000_000) / 1_000_000_000 * 1_000_000_000
  {
    TokenLife(c, "access", m, "access", now);
  }

  lemma RefreshTokenLife(c: Config, m: Mint, now: int)
    requires c.p.Valid() && m.jti.Some?
    ensures Validate(c, Token(c, "refresh", m).value, "refresh", now).Success?
        <==> now <= (m.now + 43_200_000_000_000) / 1_000_000_000 * 1_000_000_000
  {
    TokenLife(c, "refresh", m, "refresh", now);
  }

  // What a token says, to whoever opens it: the administrator's claim is in access tokens only.
  lemma TokenClaims(c: Config, kind: string, m: Mint)
    requires c.p.Valid() && m.jti.Some? && (kind == "access" || kind == "refresh")
    ensures var held := c.p.open(c.key, Token(c, kind, m).value);
            && held.Some?
            && var claims := held.value;
            && (claims.admin <==> kind == "access") && claims.tokenType == Some(kind)
            && claims.iss == Some(c.host) && claims.jti == m.jti
            && claims.iat == Some(c.p.formatTime(m.now)) && claims.nbf == Some(c.p.formatTime(m.now))
            && claims.exp == Some(c.p.formatTime(m.now + if kind == "access" then 900_000_000_000 else 43_200_000_000_000))
  {
    assert c.p.open(c.key, Token(c, kind, m).value) == Some(Issued(c, kind, m, m.jti.value));
  }

  // ---------- One use ----------

  function ValidateRefresh(c: Config, used: seq<string>, token: string, now: int): Result<Claims, Failure> {
    match Validate(c, token, REFRESH, now)
    case Failure(e) => Result.Failure(e)
    case Success(claims) =>
      if claims.jti.None? then Result.Failure(MissingJti)
      else if claims.jti.value in used then Result.Failure(AlreadyUsed)
      else Success(claims)
  }

  // The row count of a jti can exceed one only in a table that is not unique.
  function InsertUsed(c: Config, used: seq<string>, jti: string, ok: bool): Option<seq<string>> {
    if !ok || (c.unique && jti in used) then None else Some(used + [jti])
  }

  class PasetoTokenService {
    const c: Config
    // The rows of used_refresh_tokens.
    var used: seq<string>

    constructor (c: Config)
      ensures this.c == c && used == []
    {
      this.c := c;
      this.used := [];
    }

    method NewToken(kind: string, m: Mint) returns (token: Option<string>)
      ensures token == Token(c, kind, m)
    {
      if m.jti.None? {
        return None;
      }
      var claims := Claims(kind == ACCESS, Some(kind), None, None, None, None, None);
      claims := claims.(iss := Some(c.host));
      claims := claims.(jti := m.jti);
      claims := claims.(iat := Some(c.p.formatTime(m.now)));
      claims := claims.(exp := Some(c.p.formatTime(m.now + Ttl(kind))));
      claims := claims.(nbf := Some(c.p.formatTime(m.now)));
      token := Some(c.p.seal(c.key, claims, m.nonce));
    }

    method NewPair(access: Mint, refresh: Mint) returns (r: Result<(string, string), Failure>)
      ensures r == match (Token(c, ACCESS, access), Token(c, REFRESH, refresh))
                   case (Some(a), Some(b)) => Success((a, b))
                   case _ => Result.Failure(MintFault)
    {
      var accessToken := NewToken(ACCESS, access);
      if accessToken.None? {
        return Result.Failure(MintFault);
      }
      var refreshToken := NewToken(REFRESH, refresh);
      if refreshToken.None? {
        return Result.Failure(MintFault);
      }
      r := Success((accessToken.value, refreshToken.value));
    }

    method ValidateToken(token: string, kind: string, now: int, keyReads: bool) returns (r: Result<Claims, Failure>)
      ensures r == if keyReads then Validate(c, token, kind, now) else Result.Failure(KeyUnreadable)
    {
      if !keyReads {
        return Result.Failure(KeyUnreadable);
      }
      var claims := c.p.open(c.key, token);
      if claims.None? {
        return Result.Failure(Undecryptable);
      }
      if claims.value.exp.None? {
        return Result.Failure(MissingExp);
      }
      var exp := c.p.parseTime(claims.value.exp.value);
      if exp.None? {
        return Result.Failure(InvalidExp);
      }
      if now > exp.value {
        return Result.Failure(Expired);
      }
      if claims.value.tokenType != Some(kind) {
        return Result.Failure(WrongType);
      }
      r := Success(claims.value);
    }

    method ValidateRefreshToken(token: string, now: int, keyReads: bool, selects: bool)
      returns (r: Result<Claims, Failure>)
      ensures r.Success? ==> ValidateRefresh(c, used, token, now) == r && keyReads && selects
      ensures keyReads && selects ==> r == ValidateRefresh(c, used, token, now)
    {
      var claims := ValidateToken(token, REFRESH, now, keyReads);
      if claims.Failure? {
        return claims;
      }
      if claims.value.jti.None? {
        return Result.Failure(MissingJti);
      }
      if !selects {
        return Result.Failure(DatabaseFault);
      }
      if claims.value.jti.value in used {
        return Result.Failure(AlreadyUsed);
      }
      r := claims;
    }

    // The token is spent before its successors are made: when making them fails, it stays spent.
    method Refresh(token: string, now: int, keyReads: bool, selects: bool, inserts: bool, access: Mint, refresh: Mint)
      returns (r: Result<(string, string), Failure>)
      modifies this`used
      ensures var spends := keyReads && selects && inserts && ValidateRefresh(c, old(used), token, now).Success?;
              && used == (if spends then old(used) + [ValidateRefresh(c, old(used), token, now).value.jti.value] else old(used))
              && (r.Success? <==> spends && access.jti.Some? && refresh.jti.Some?)
      ensures keyReads && selects ==>
                forall s: State | s.used == old(used) && s.flights == map[] ::
                  Alone(c, s, token, now, inserts, refresh.jti).used == used
      ensures r.Success? ==> Token(c, ACCESS, access) == Some(r.value.0) && Token(c, REFRESH, refresh) == Some(r.value.1)
    {
      forall s: State | s.used == used && s.flights == map[]
        ensures Alone(c, s, token, now, inserts, refresh.jti).used
             == if ValidateRefresh(c, used, token, now).Success? && inserts
                then used + [ValidateRefresh(c, used, token, now).value.jti.value] else used
      {
        AloneMeans(c, s, token, now, inserts, refresh.jti);
      }
      var claims := ValidateRefreshToken(token, now, keyReads, selects);
      if claims.Failure? {
        return Result.Failure(claims.error);
      }
      var inserted := InsertUsed(c, used, claims.value.jti.value, inserts);
      if inserted.None? {
        return Result.Failure(DatabaseFault);
      }
      used := inserted.value;
      r := NewPair(access, refresh);
    }
  }

  // ---------- Runs ----------

  // `issued` are the refresh tokens handed out, `accepted` those that bought a refresh, `foreign`
  // how many of the latter had not been handed out, `operatorPairs` how many pairs the operator
  // asked for. `flights` are refreshes between their check and their insert.
  datatype State = State(
    used: seq<string>,
    issued: set<string>,
    accepted: seq<string>,
    foreign: nat,
    operatorPairs: nat,
    flights: map<nat, string>)

  const INITIAL := State([], {}, [], 0, 0, map[])

  // `jti` is the identifier of the refresh token of a new pair, None when making the pair fails.
  datatype Event =
    | Pair(jti: Option<string>)
    | Check(id: nat, token: string, now: int)
    | Mark(id: nat, inserts: bool, jti: Option<string>)

  function Hand(s: State, jti: Option<string>): State {
    if jti.None? then s else s.(issued := s.issued + {jti.value})
  }

  function Spend(s: State, jti: string): State {
    s.(used := s.used + [jti], accepted := s.accepted + [jti],
       foreign := s.foreign + if jti in s.issued then 0 else 1)
  }

  function Next(c: Config, s: State, e: Event): State {
    match e
    case Pair(jti) => Hand(s.(operatorPairs := s.operatorPairs + 1), jti)
    case Check(id, token, now) =>
      var claims := ValidateRefresh(c, s.used, token, now);
      if id in s.flights || claims.Failure? then s
      else s.(flights := s.flights[id := claims.value.jti.value])
    case Mark(id, inserts, jti) =>
      if id !in s.flights then s
      else
        var landed := s.(flights := s.flights - {id});
        if InsertUsed(c, s.used, s.flights[id], inserts).None? then landed
        else Hand(Spend(landed, s.flights[id]), jti)
  }

  ghost predicate IsRun(c: Config, ss: seq<State>, es: seq<Event>) {
    && |ss| == |es| + 1
    && ss[0] == INITIAL
    && forall i | 0 <= i < |es| :: ss[i + 1] == Next(c, ss[i], es[i])
  }

  ghost predicate Distinct(ids: seq<string>) {
    forall i, j | 0 <= i < j < |ids| :: ids[i] != ids[j]
  }

  // No step of a one-at-a-time run falls between a check and its insert.
  ghost predicate OneAtATime(ss: seq<State>, es: seq<Event>) {
    forall i | 0 <= i < |es| && i < |ss| && ss[i].flights != map[] ::
      i > 0 && es[i - 1].Check? && es[i].Mark? && es[i].id == es[i - 1].id
  }

  // The insert at step `n` is of a jti the table does not have.
  lemma MarkFindsUnused(c: Config, ss: seq<State>, es: seq<Event>, n: nat)
    requires IsRun(c, ss, es) && n < |es| && es[n].Mark? && es[n].id in ss[n].flights
    requires OneAtATime(ss, es) || (c.unique && InsertUsed(c, ss[n].used, ss[n].flights[es[n].id], es[n].inserts).Some?)
    ensures ss[n].flights[es[n].id] !in ss[n].used
  {
    if OneAtATime(ss, es) {
      assert ss[n].flights != map[];
      assert ss[n] == Next(c, ss[n - 1], es[n - 1]);
      assert ss[n - 1].flights == map[];
    }
  }

  // Linearity: when requests come one at a time, or the table is unique, every refresh token is
  // accepted at most once, however requests interleave in the latter case.
  lemma {:induction false} AcceptedAtMostOnce(c: Config, ss: seq<State>, es: seq<Event>, n: nat)
    requires IsRun(c, ss, es) && n < |ss| && (c.unique || OneAtATime(ss, es))
    ensures Distinct(ss[n].accepted) && ss[n].accepted == ss[n].used
  {
    if n > 0 {
      AcceptedAtMostOnce(c, ss, es, n - 1);
      var s, e := ss[n - 1], es[n - 1];
      assert ss[n] == Next(c, s, e);
      if e.Mark? && e.id in s.flights && InsertUsed(c, s.used, s.flights[e.id], e.inserts).Some? {
        MarkFindsUnused(c, ss, es, n - 1);
      }
    }
  }

  // A refresh with nothing else in flight.
  function Alone(c: Config, s: State, token: string, now: int, inserts: bool, jti: Option<string>): State {
    Next(c, Next(c, s, Check(0, token, now)), Mark(0, inserts, jti))
  }

  // It spends the token if the token is valid and unspent and the insert succeeds, unique or not,
  // and then hands out the successor; otherwise it changes nothing.
  lemma AloneMeans(c: Config, s: State, token: string, now: int, inserts: bool, jti: Option<string>)
    requires s.flights == map[]
    ensures var claims := ValidateRefresh(c, s.used, token, now);
            Alone(c, s, token, now, inserts, jti)
            == if claims.Success? && inserts then Hand(Spend(s, claims.value.jti.value), jti) else s
  {
  }

  // ---------- The race ----------

  // Two refreshes of one token, both checked before either insert.
  function Race(token: string, now: int): seq<Event> {
    [Check(1, token, now), Check(2, token, now), Mark(1, true, None), Mark(2, true, None)]
  }

  lemma RaceSpendsTwice(c: Config, token: string, now: int) returns (ss: seq<State>)
    requires !c.unique && ValidateRefresh(c, [], token, now).Success?
    ensures IsRun(c, ss, Race(token, now))
    ensures var jti := ValidateRefresh(c, [], token, now).value.jti.value;
            ss[4].accepted == [jti, jti]
  {
    var jti := ValidateRefresh(c, [], token, now).value.jti.value;
    var es := Race(token, now);
    var s1 := Next(c, INITIAL, es[0]);
    var s2 := Next(c, s1, es[1]);
    var s3 := Next(c, s2, es[2]);
    var s4 := Next(c, s3, es[3]);
    assert s2.flights == map[1 := jti, 2 := jti];
    assert s3.flights == map[2 := jti] && s3.accepted == [jti];
    ss := [INITIAL, s1, s2, s3, s4];
  }

  ghost predicate AlwaysOnce(c: Config) {
    forall ss: seq<State>, es: seq<Event>, n: nat | IsRun(c, ss, es) && n < |ss| :: Distinct(ss[n].accepted)
  }

  // With requests interleaving freely, single use rests on the table being unique, and on that
  // alone.
  lemma SingleUseIffUnique(c: Config)
    requires c.p.Valid()
    ensures AlwaysOnce(c) <==> c.unique
  {
    if c.unique {
      forall ss: seq<State>, es: seq<Event>, n: nat | IsRun(c, ss, es) && n < |ss| ensures Distinct(ss[n].accepted) {
        AcceptedAtMostOnce(c, ss, es, n);
      }
    } else {
      var m := Mint(0, Some("jti"), []);
      TokenLife(c, REFRESH, m, REFRESH, 0);
      var token := Token(c, REFRESH, m).value;
      var ss := RaceSpendsTwice(c, token, 0);
      assert ss[4].accepted[0] == ss[4].accepted[1];
      assert IsRun(c, ss, Race(token, 0)) && !Distinct(ss[4].accepted);
    }
  }

  // ---------- Conservation ----------

  function Outstanding(s: State): set<string> {
    set jti | jti in s.issued && jti !in s.used
  }

  lemma HandAddsOne(s: State, jti: Option<string>)
    ensures |Outstanding(Hand(s, jti))| <= |Outstanding(s)| + 1
  {
    if jti.Some? {
      assert Outstanding(Hand(s, jti)) <= Outstanding(s) + {jti.value};
      SubsetIsSmaller(Outstanding(Hand(s, jti)), Outstanding(s) + {jti.value});
    }
  }

  lemma {:induction false} SubsetIsSmaller(a: set<string>, b: set<string>)
    requires a <= b
    ensures |a| <= |b|
  {
    assert b == a + (b - a);
  }

  lemma SpendTakesOne(s: State, jti: string)
    requires jti !in s.used
    ensures |Outstanding(Spend(s, jti))| + (if jti in s.issued then 1 else 0) == |Outstanding(s)|
  {
    assert Outstanding(Spend(s, jti)) == Outstanding(s) - {jti};
  }

  // Refreshing never multiplies tokens: the refresh tokens handed out and not yet spent are at
  // most the pairs the operator asked for, plus the spent tokens that were never handed out.
  lemma {:induction false} OutstandingIsBounded(c: Config, ss: seq<State>, es: seq<Event>, n: nat)
    requires IsRun(c, ss, es) && n < |ss| && (c.unique || OneAtATime(ss, es))
    ensures |Outstanding(ss[n])| <= ss[n].operatorPairs + ss[n].foreign
  {
    if n > 0 {
      OutstandingIsBounded(c, ss, es, n - 1);
      var s, e := ss[n - 1], es[n - 1];
      assert ss[n] == Next(c, s, e);
      match e {
        case Pair(jti) =>
          HandAddsOne(s.(operatorPairs := s.operatorPairs + 1), jti);
        case Check(id, token, now) =>
        case Mark(id, inserts, jti) =>
          if id in s.flights && InsertUsed(c, s.used, s.flights[id], inserts).Some? {
            MarkFindsUnused(c, ss, es, n - 1);
            var landed := s.(flights := s.flights - {id});
            SpendTakesOne(landed, s.flights[id]);
            HandAddsOne(Spend(landed, s.flights[id]), jti);
          }
      }
    }
  }
}

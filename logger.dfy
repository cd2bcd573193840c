/** The request-tracking middleware (loggerMiddleware.js): the Cookie-header
    parse, the session id decision, the client address and user agent it
    records on the request, the amount parser of the profile-view log, and
    which log the `finish` hook writes. */
module Logger {
  import opened JsValues
  import opened JsStrings
  import opened JsNumbers
  import opened Parsers
  import opened Requests
  import opened Database
  import opened Grouping
  import opened Consulta

  // ---------------------------------------------------------------------
  // The Cookie header (lines 16-20)

  /** The object the `reduce` builds: every value is a string or undefined. */
  type Cookies = map<string, JsText>

  /** A cookie's name: the trimmed piece up to its first `=`. */
  function CookieKey(piece: string): string {
    Split(Trim(piece), "=")[0]
  }

  /** A cookie's value: the text between the first and the second `=` of
      the trimmed piece, or undefined when the piece has no `=`. */
  function CookieValue(piece: string): JsText {
    var parts := Split(Trim(piece), "=");
    if |parts| >= 2 then Str(parts[1]) else Undefined
  }

  /** The name and value of one piece. */
  function CookiePart(piece: string): (string, JsText) {
    (CookieKey(piece), CookieValue(piece))
  }

  /** `acc[key] = value`. An ordinary key becomes an own property; the key
      `__proto__` reaches the prototype setter, which ignores strings and
      undefined, so nothing is stored. */
  function Assign(acc: Cookies, key: string, value: JsText): Cookies {
    if key == "__proto__" then acc else acc[key := value]
  }

  /** The `reduce` over the `;`-separated pieces, starting from `{}`; `part`
      splits one piece into its name and value. */
  function CookieFold(pieces: seq<string>, part: string -> (string, JsText)): Cookies
    decreases |pieces|
  {
    if pieces == [] then map[]
    else
      var last := part(pieces[|pieces| - 1]);
      Assign(CookieFold(pieces[..|pieces| - 1], part), last.0, last.1)
  }

  /** The cookies of the Cookie header: the pieces between `;` folded in
      order, or no cookies at all when the header is absent. */
  function CookieJar(header: Option<string>): Cookies {
    match header
    case None => map[]
    case Some(h) => CookieFold(Split(h, ";"), CookiePart)
  }

  /** The `reduce` as the loop it is: one assignment per piece into a
      single accumulator. */
  method ParseCookies(header: Option<string>) returns (cookies: Cookies)
    ensures cookies == CookieJar(header)
  {
    cookies := map[];
    if header.Some? {
      var pieces := Split(header.value, ";");
      for i := 0 to |pieces|
        invariant cookies == CookieFold(pieces[..i], CookiePart)
      {
        var entry := CookiePart(pieces[i]);
        if entry.0 != "__proto__" {
          cookies := cookies[entry.0 := entry.1];
        }
        FoldStep(pieces, i, CookiePart);
      }
      assert pieces[..|pieces|] == pieces;
    }
  }

  lemma FoldStep(pieces: seq<string>, i: nat, part: string -> (string, JsText))
    requires i < |pieces|
    ensures CookieFold(pieces[..i + 1], part)
      == Assign(CookieFold(pieces[..i], part), part(pieces[i]).0, part(pieces[i]).1)
  {
    assert pieces[..i + 1][..i] == pieces[..i];
  }

  /** The last piece whose name is `k`, or -1. */
  function LastWithKey(pieces: seq<string>, part: string -> (string, JsText), k: string): (r: int)
    ensures -1 <= r < |pieces|
    ensures r >= 0 ==> part(pieces[r]).0 == k
    ensures forall j :: r < j < |pieces| ==> part(pieces[j]).0 != k
    decreases |pieces|
  {
    if pieces == [] then -1
    else if part(pieces[|pieces| - 1]).0 == k then |pieces| - 1
    else LastWithKey(pieces[..|pieces| - 1], part, k)
  }

  /** A name is in the cookie object exactly when some piece carries it
      (and it is not `__proto__`), and its value is the one of the LAST such
      piece: a later cookie overwrites an earlier one. */
  lemma {:induction false} CookieLookup(pieces: seq<string>, part: string -> (string, JsText), k: string)
    ensures k in CookieFold(pieces, part) <==> k != "__proto__" && LastWithKey(pieces, part, k) >= 0
    ensures k in CookieFold(pieces, part) ==>
      CookieFold(pieces, part)[k] == part(pieces[LastWithKey(pieces, part, k)]).1
    decreases |pieces|
  {
    if pieces != [] {
      CookieLookup(pieces[..|pieces| - 1], part, k);
    }
  }

  /** The same, for the header as `reduce` sees it. */
  lemma HeaderLookup(h: string, k: string)
    ensures var pieces := Split(h, ";");
      (k in CookieJar(Some(h)) <==> k != "__proto__" && LastWithKey(pieces, CookiePart, k) >= 0)
      && (k in CookieJar(Some(h)) ==>
            CookieJar(Some(h))[k] == CookieValue(pieces[LastWithKey(pieces, CookiePart, k)]))
  {
    CookieLookup(Split(h, ";"), CookiePart, k);
  }

  /** A header with no `;` is one cookie. */
  lemma SingleCookie(h: string)
    requires forall i :: 0 <= i < |h| ==> h[i] != ';'
    ensures CookieJar(Some(h)) == Assign(map[], CookieKey(h), CookieValue(h))
  {
    SplitNone(h, ";");
    assert CookieFold([h], CookiePart) == Assign(CookieFold([], CookiePart), CookieKey(h), CookieValue(h));
  }

  /** A piece `k=v` (after trimming) has name `k` and value `v`. */
  lemma CookiePiece(piece: string, k: string, v: string)
    requires forall i :: 0 <= i < |k| ==> k[i] != '='
    requires forall i :: 0 <= i < |v| ==> v[i] != '='
    requires Trim(piece) == k + "=" + v
    ensures CookieKey(piece) == k && CookieValue(piece) == Str(v)
  {
    SplitAfter(k, "=", v);
    SplitNone(v, "=");
    assert Split(Trim(piece), "=") == [k, v];
  }

  /** In a piece `k=v=...` the value stops at the second `=`. */
  lemma CookiePieceCut(piece: string, k: string, v: string, tail: string)
    requires forall i :: 0 <= i < |k| ==> k[i] != '='
    requires forall i :: 0 <= i < |v| ==> v[i] != '='
    requires Trim(piece) == k + "=" + v + "=" + tail
    ensures CookieKey(piece) == k && CookieValue(piece) == Str(v)
  {
    var rest := v + "=" + tail;
    assert Trim(piece) == k + "=" + rest;
    SplitAfter(k, "=", rest);
    SplitAfter(v, "=", tail);
    var parts := Split(Trim(piece), "=");
    assert parts == [k] + ([v] + Split(tail, "="));
    assert parts[0] == k && parts[1] == v;
  }

  /** A piece without `=` names a cookie whose value is undefined. */
  lemma CookieWithoutValue(piece: string)
    requires forall i :: 0 <= i < |Trim(piece)| ==> Trim(piece)[i] != '='
    ensures CookieKey(piece) == Trim(piece) && CookieValue(piece) == Undefined
  {
    SplitNone(Trim(piece), "=");
  }

  // ---------------------------------------------------------------------
  // The session id (lines 22-32)

  /** The sid the request carries on and whether the visitor is new. */
  datatype Session = Session(sid: string, isNewUser: bool)

  /** The value of the `sid` cookie, or undefined when there is none. */
  function SidCookie(cookies: Cookies): JsText {
    if "sid" in cookies then cookies["sid"] else Undefined
  }

  /** The decision of lines 22-32, with `randomUUID()` passed in as `newSid`. */
  function ChooseSid(cookies: Cookies, newSid: string): (r: Session)
    ensures r.isNewUser <==> !Truthy(SidCookie(cookies))
    ensures !r.isNewUser ==> Str(r.sid) == cookies["sid"] && r.sid != ""
    ensures r.isNewUser ==> r.sid == newSid
  {
    var sid := SidCookie(cookies);
    if Truthy(sid) then Session(sid.s, false) else Session(newSid, true)
  }

  /** Without a Cookie header the visitor is new and gets the new id. */
  lemma NoCookieHeader(newSid: string)
    ensures CookieJar(None) == map[]
    ensures ChooseSid(CookieJar(None), newSid) == Session(newSid, true)
  {
  }

  /** A header `sid=v` with a non-empty `v` keeps `v` as the session id and
      the visitor is returning. */
  lemma SidReused(v: string, newSid: string)
    requires v != [] && !IsSpace(v[|v| - 1])
    requires forall i :: 0 <= i < |v| ==> v[i] != '=' && v[i] != ';'
    ensures ChooseSid(CookieJar(Some("sid=" + v)), newSid) == Session(v, false)
  {
    var h := "sid=" + v;
    SidPiece(v);
    SingleCookie(h);
  }

  /** The lone piece `sid=v` names `sid` with value `v`, and has no `;`. */
  lemma SidPiece(v: string)
    requires v == [] || !IsSpace(v[|v| - 1])
    requires forall i :: 0 <= i < |v| ==> v[i] != '=' && v[i] != ';'
    ensures forall i :: 0 <= i < |"sid=" + v| ==> ("sid=" + v)[i] != ';'
    ensures CookieKey("sid=" + v) == "sid" && CookieValue("sid=" + v) == Str(v)
  {
    SidName();
    assert "sid" + "=" + v == "sid=" + v;
    NamedPiece("sid", v, "sid=" + v);
  }

  lemma SidName()
    ensures "sid" != [] && !IsSpace("sid"[0])
    ensures forall i :: 0 <= i < |"sid"| ==> "sid"[i] != '=' && "sid"[i] != ';'
  {
  }

  /** A piece `k=v` with nothing to trim names `k` with value `v`. */
  lemma NamedPiece(k: string, v: string, h: string)
    requires h == k + "=" + v
    requires k != [] && !IsSpace(k[0])
    requires v == [] || !IsSpace(v[|v| - 1])
    requires forall i :: 0 <= i < |k| ==> k[i] != '=' && k[i] != ';'
    requires forall i :: 0 <= i < |v| ==> v[i] != '=' && v[i] != ';'
    ensures forall i :: 0 <= i < |h| ==> h[i] != ';'
    ensures CookieKey(h) == k && CookieValue(h) == Str(v)
  {
    forall i | 0 <= i < |h| ensures h[i] != ';' {
      if i < |k| {
        assert h[i] == k[i];
      } else if i > |k| {
        assert h[i] == v[i - |k| - 1];
      }
    }
    assert h[0] == k[0];
    assert h[|h| - 1] == (if v == [] then '=' else v[|v| - 1]);
    TrimKeeps(h);
    CookiePiece(h, k, v);
  }

  /** An empty `sid=` is treated as no sid at all. */
  lemma EmptySid(newSid: string)
    ensures ChooseSid(CookieJar(Some("sid=")), newSid) == Session(newSid, true)
  {
    SidPiece("");
    assert "sid=" + "" == "sid=";
    SingleCookie("sid=");
  }

  // ---------------------------------------------------------------------
  // The client address and user agent (lines 40-51)

  /** The first hop of `x-forwarded-for`, when the header is there at all. */
  function ForwardedHop(h: Headers): Option<string> {
    match h.forwardedFor
    case None => None
    case Some(f) => Some(FirstForwarded(f))
  }

  /** The `||` chain of lines 40-45. */
  function ClientIp(h: Headers, remoteAddress: Option<string>, ip: Option<string>): string {
    if Present(ForwardedHop(h)) then ForwardedHop(h).value
    else if Present(h.realIp) then h.realIp.value
    else SocketFallback(remoteAddress, ip)
  }

  /** The value of the first present, non-empty candidate, else `otherwise`. */
  function FirstPresent(candidates: seq<Option<string>>, otherwise: string): (r: string)
    ensures (exists i :: 0 <= i < |candidates| && Present(candidates[i])) ==>
      exists i :: 0 <= i < |candidates| && Present(candidates[i]) && r == candidates[i].value
        && forall j :: 0 <= j < i ==> !Present(candidates[j])
    ensures (forall i :: 0 <= i < |candidates| ==> !Present(candidates[i])) ==> r == otherwise
  {
    if candidates == [] then otherwise
    else if Present(candidates[0]) then candidates[0].value
    else FirstPresent(candidates[1..], otherwise)
  }

  /** The client address is the first usable one of the trimmed first
      `x-forwarded-for` hop, `x-real-ip`, the socket address and `req.ip`,
      and `"unknown"` when none is; it is never empty. */
  lemma ClientIpOrder(h: Headers, remoteAddress: Option<string>, ip: Option<string>)
    ensures ClientIp(h, remoteAddress, ip)
      == FirstPresent([ForwardedHop(h), h.realIp, remoteAddress, ip], "unknown")
    ensures ClientIp(h, remoteAddress, ip) != ""
  {
    var c := [ForwardedHop(h), h.realIp, remoteAddress, ip];
    assert c[3..][1..] == [];
    assert FirstPresent(c[3..], "unknown") == (if Present(ip) then ip.value else "unknown");
    assert c[2..][1..] == c[3..];
    assert FirstPresent(c[2..], "unknown") == SocketFallback(remoteAddress, ip);
    assert c[1..][1..] == c[2..];
    assert c[1..] == [h.realIp, remoteAddress, ip];
  }

  /** The middleware and `getClientIp` disagree exactly when
      `x-forwarded-for` is non-empty but its first hop is blank: the
      middleware falls through to the next source, `getClientIp` returns "". */
  lemma ClientIpVersusDatabase(h: Headers, remoteAddress: Option<string>, ip: Option<string>)
    ensures ClientIp(h, remoteAddress, ip) != GetClientIp(h, remoteAddress, ip) <==>
      Present(h.forwardedFor) && FirstForwarded(h.forwardedFor.value) == ""
  {
    if h.forwardedFor == Some("") {
      SplitNone("", ",");
      TrimKeeps("");
    }
  }

  // ---------------------------------------------------------------------
  // Entering the middleware (lines 15-51)

  /** The synchronous part of `loggerMiddleware`: it parses the cookies,
      decides the session id (`newSid` stands for `randomUUID()`), and
      records the sid, the client address and the user agent on the request. */
  method Enter(req: Request, newSid: string) returns (isNewUser: bool)
    modifies req
    ensures var s := ChooseSid(CookieJar(req.headers.cookie), newSid);
      req.sid == Some(s.sid) && isNewUser == s.isNewUser
    ensures req.clientIp == Some(ClientIp(req.headers, req.remoteAddress, req.ip))
    ensures req.userAgent == Some(GetUserAgent(req.headers))
    ensures req.totalRegistros == old(req.totalRegistros) && req.responseData == old(req.responseData)
  {
    var cookies := ParseCookies(req.headers.cookie);
    var sidValue := SidCookie(cookies);
    var sid: string;
    isNewUser := false;
    if !Truthy(sidValue) {
      sid := newSid;
      isNewUser := true;
    } else {
      sid := sidValue.s;
    }
    req.sid := Some(sid);
    req.clientIp := Some(ClientIp(req.headers, req.remoteAddress, req.ip));
    req.userAgent := Some(GetUserAgent(req.headers));
  }

  // ---------------------------------------------------------------------
  // The profile-view amount parser (lines 118-127)

  /** The local `parsearMonto`: a string loses every `$` and `,` and goes
      through `parseFloat`; any other value is passed back unchanged. The
      `catch` cannot be reached, since `replace` on a string does not throw. */
  function ParsearMontoLocal(monto: JsValue): (r: JsValue)
    ensures monto.Str? ==> r.Number?
    ensures !monto.Str? ==> r == monto
  {
    if monto.Str? then Number(ParseFloat(StripMoney(monto.s))) else monto
  }

  /** It agrees with the handler's `parsearMonto` on strings, and parsing
      twice is parsing once. */
  lemma LocalMontoAgrees(monto: JsValue)
    ensures monto.Str? ==> ParsearMontoLocal(monto) == Number(ParsearMonto(monto).value)
    ensures ParsearMontoLocal(ParsearMontoLocal(monto)) == ParsearMontoLocal(monto)
  {
  }

  /** A formatted amount `$1,234.56` is read back as its value. */
  lemma LocalMontoRoundTrip(cents: nat)
    ensures ParsearMontoLocal(Str(AmountLabel(cents))) == Number(Fin(cents as real / 100.0))
  {
    AmountRoundTrip(cents);
  }

  // ---------------------------------------------------------------------
  // The `finish` hook's choice of log (lines 88-92, 106)

  /** What the hook writes: a consulta log with its two counts, a profile
      view log, or nothing. */
  datatype LogAction = ConsultaLog(totalRegistros: nat, registrosFiltrados: nat) | VistaLog | NoLog

  /** The `if`/`else if` of the hook. `responseData` is truthy once `res.json`
      captured a body; `req.totalRegistros || 0` and
      `req.responseData?.datosSolr?.length || 0` default to 0. */
  function FinishLog(originalUrl: Option<string>, httpMethod: string,
                     responseData: ResponseData, totalRegistros: Option<nat>): LogAction
  {
    if originalUrl == Some("/api/consulta") && httpMethod == "POST" && responseData.Body? then
      ConsultaLog(
        if totalRegistros.Some? then totalRegistros.value else 0,
        if responseData.datosSolrLength.Some? then responseData.datosSolrLength.value else 0)
    else if originalUrl == Some("/api/profesor-vista") && httpMethod == "POST" then VistaLog
    else NoLog
  }

  /** A consulta is logged only for a POST to `/api/consulta` with a
      captured body, a profile view only for a POST to `/api/profesor-vista`;
      missing counts are logged as 0. */
  lemma FinishLogCases(originalUrl: Option<string>, httpMethod: string,
                       responseData: ResponseData, totalRegistros: Option<nat>)
    ensures var r := FinishLog(originalUrl, httpMethod, responseData, totalRegistros);
      (r.ConsultaLog? <==> originalUrl == Some("/api/consulta") && httpMethod == "POST" && responseData.Body?)
      && (r.VistaLog? <==> originalUrl == Some("/api/profesor-vista") && httpMethod == "POST")
      && (r.NoLog? <==>
            (httpMethod != "POST"
             || (originalUrl != Some("/api/consulta") && originalUrl != Some("/api/profesor-vista"))
             || (originalUrl == Some("/api/consulta") && responseData.NoResponse?)))
      && (r.ConsultaLog? && totalRegistros.None? ==> r.totalRegistros == 0)
      && (r.ConsultaLog? && responseData.datosSolrLength.None? ==> r.registrosFiltrados == 0)
  {
  }

  /** After `processDataSolr` answered a POST to `/api/consulta`, the log
      carries the upstream record count and the number of professors
      returned, and the second never exceeds the first. */
  lemma ConsultaLogCounts(datos: seq<Item>, entidad: JsText)
    ensures var response := ConsultaResponse(datos, entidad);
      FinishLog(Some("/api/consulta"), "POST", Body(Some(|response.datosSolr|)), Some(|datos|))
        == ConsultaLog(|datos|, |response.datosSolr|)
    ensures |ConsultaResponse(datos, entidad).datosSolr| <= |datos|
  {
    ResponseCount(datos, entidad);
  }
}

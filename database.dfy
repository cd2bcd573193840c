/** The two request helpers of database.js (lines 208-230): the client address
    behind proxies and the user agent. */
module Database {
  import opened JsValues
  import opened JsStrings
  import opened Requests

  /** `forwarded.split(',')[0].trim()`: the first hop of `x-forwarded-for`. */
  function FirstForwarded(f: string): string {
    Trim(Split(f, ",")[0])
  }

  /** `remoteAddress || ip || 'unknown'`: the direct connection's address. */
  function SocketFallback(remoteAddress: Option<string>, ip: Option<string>): (r: string)
    ensures r != ""
    ensures Present(remoteAddress) ==> r == remoteAddress.value
    ensures !Present(remoteAddress) && Present(ip) ==> r == ip.value
    ensures !Present(remoteAddress) && !Present(ip) ==> r == "unknown"
  {
    if Present(remoteAddress) then remoteAddress.value
    else if Present(ip) then ip.value
    else "unknown"
  }

  /** The client address the database layer records: the first hop of
      `x-forwarded-for` when that header is non-empty, else `x-real-ip` when
      non-empty, else the socket fallback. */
  function GetClientIp(h: Headers, remoteAddress: Option<string>, ip: Option<string>): string {
    if Present(h.forwardedFor) then FirstForwarded(h.forwardedFor.value)
    else if Present(h.realIp) then h.realIp.value
    else SocketFallback(remoteAddress, ip)
  }

  /** The `user-agent` header when non-empty, else "unknown". */
  function GetUserAgent(h: Headers): (r: string)
    ensures r != ""
    ensures Present(h.userAgent) ==> r == h.userAgent.value
    ensures !Present(h.userAgent) ==> r == "unknown"
  {
    if Present(h.userAgent) then h.userAgent.value else "unknown"
  }

  /** `x-forwarded-for` wins over `x-real-ip`, which wins over the socket
      address; each header counts only when present and non-empty. */
  lemma ClientIpPriority(h: Headers, remoteAddress: Option<string>, ip: Option<string>)
    ensures Present(h.forwardedFor) ==>
      GetClientIp(h, remoteAddress, ip) == FirstForwarded(h.forwardedFor.value)
    ensures !Present(h.forwardedFor) && Present(h.realIp) ==>
      GetClientIp(h, remoteAddress, ip) == h.realIp.value
    ensures !Present(h.forwardedFor) && !Present(h.realIp) ==>
      GetClientIp(h, remoteAddress, ip) == SocketFallback(remoteAddress, ip)
  {
  }

  /** The first hop is a slice of `x-forwarded-for` up to its first comma,
      with no comma in it and no white space at either end. */
  lemma FirstForwardedShape(f: string)
    ensures var r := FirstForwarded(f);
      (forall k :: 0 <= k < |r| ==> r[k] != ',')
      && (r == [] || (!IsSpace(r[0]) && !IsSpace(r[|r| - 1])))
      && exists i, j :: 0 <= i <= j <= |f| && r == f[i..j]
  {
    var p := Split(f, ",")[0];
    TrimSpec(p);
    var i, j := FirstHopSlice(f);
    FirstHopNoComma(f, p, i, j);
  }

  /** Where the first hop sits in the header. */
  lemma FirstHopSlice(f: string) returns (i: nat, j: nat)
    ensures i <= j <= |Split(f, ",")[0]| <= |f|
    ensures FirstForwarded(f) == Split(f, ",")[0][i..j] == f[i..j]
  {
    var pieces := Split(f, ",");
    var p := pieces[0];
    i, j := TrimBounds(p);
    SplitJoin(f, ",");
    FirstPieceIsPrefix(pieces, ",");
    assert f[..|p|] == p;
    assert p[i..j] == f[i..j];
  }

  lemma FirstHopNoComma(f: string, p: string, i: nat, j: nat)
    requires p == Split(f, ",")[0] && i <= j <= |p|
    ensures forall k :: 0 <= k < j - i ==> p[i..j][k] != ','
  {
    SplitPiecesLackSeparator(f, ",");
    NoCommaIn(p);
  }

  /** A piece without the separator has no comma character. */
  lemma NoCommaIn(p: string)
    requires !Includes(p, ",")
    ensures forall k :: 0 <= k < |p| ==> p[k] != ','
  {
    IncludesSpec(p, ",");
    forall k | 0 <= k < |p| ensures p[k] != ',' {
      assert !OccursAt(p, ",", k);
      assert p[k..k + 1] == [p[k]];
    }
  }

  /** The first piece of a split is a prefix of what the pieces join to. */
  lemma FirstPieceIsPrefix(pieces: seq<string>, sep: string)
    requires |pieces| >= 1
    ensures |pieces[0]| <= |Join(pieces, sep)| && Join(pieces, sep)[..|pieces[0]|] == pieces[0]
  {
    if |pieces| > 1 {
      assert Join(pieces, sep) == pieces[0] + sep + Join(pieces[1..], sep);
    }
  }

  /** The address is empty exactly when `x-forwarded-for` is present but its
      first hop is blank: that value is returned as it is rather than
      falling through to the next source. */
  lemma EmptyClientIp(h: Headers, remoteAddress: Option<string>, ip: Option<string>)
    ensures GetClientIp(h, remoteAddress, ip) == "" <==>
      Present(h.forwardedFor) && FirstForwarded(h.forwardedFor.value) == ""
  {
  }

  /** A header whose first hop is blank, with every other source present,
      still yields the empty address. */
  lemma BlankFirstHop()
    ensures GetClientIp(Headers(None, Some(",10.0.0.1"), Some("10.0.0.2"), None), Some("10.0.0.3"), None) == ""
  {
    var h := Headers(None, Some(",10.0.0.1"), Some("10.0.0.2"), None);
    assert h.forwardedFor.value == "," + "10.0.0.1" && Present(h.forwardedFor);
    ClientIpPriority(h, Some("10.0.0.3"), None);
    BlankHop("10.0.0.1");
  }

  /** A header that starts with a comma has a blank first hop. */
  lemma BlankHop(rest: string)
    ensures FirstForwarded("," + rest) == ""
  {
    assert "," + rest == "" + "," + rest;
    SplitAfter("", ",", rest);
    TrimKeeps("");
  }
}

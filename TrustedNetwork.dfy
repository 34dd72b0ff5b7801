/** TrustedNetwork: whether a client address may be trusted. Only the loopback
    address "127.0.0.1" is trusted outright; any other address is trusted when the
    local server's zimbraMailTrustedIP attribute lists it. */
module TrustedNetwork {
  import opened Common

  const IpLocalhost: string := "127.0.0.1"

  /** isLocalhost: exact string equality with "127.0.0.1", so null is not localhost and
      neither is any other spelling of the loopback address. */
  function IsLocalhost(ip: Option<string>): (r: bool)
    ensures ip == Some(IpLocalhost) ==> r
    ensures ip.None? ==> !r
    ensures ip.Some? && ip.value != IpLocalhost ==> !r
  {
    ip == Some(IpLocalhost)
  }

  /** isIpTrusted. `ip` is None for null; `localServer` holds the local server's trusted
      addresses, or None when the server could not be fetched (a ServiceException). */
  function IsIpTrusted(ip: Option<string>, localServer: Option<set<string>>): (trusted: bool)
    ensures ip.None? || ip == Some("") ==> !trusted
    ensures IsLocalhost(ip) ==> trusted
    ensures !IsLocalhost(ip) && localServer.None? ==> !trusted
    ensures ip.Some? && ip.value != "" && !IsLocalhost(ip) && localServer.Some? ==> (trusted <==> ip.value in localServer.value)
  {
    if ip.None? || |ip.value| == 0 then false
    else if IsLocalhost(ip) then true
    else match localServer
      case None => false
      case Some(trustedIps) => ip.value in trustedIps
  }

  /** Trust in one sentence: a non-empty address that is the loopback address or is
      listed by a server that could be fetched. */
  lemma TrustedExactly(ip: Option<string>, localServer: Option<set<string>>)
    ensures IsIpTrusted(ip, localServer) <==>
              ip.Some? && ip.value != "" &&
              (ip.value == IpLocalhost || (localServer.Some? && ip.value in localServer.value))
  {
  }

  /** The loopback address is trusted whatever the configuration says, and even when it
      cannot be read. */
  lemma LocalhostIgnoresConfiguration(a: Option<set<string>>, b: Option<set<string>>)
    ensures IsIpTrusted(Some(IpLocalhost), a) && IsIpTrusted(Some(IpLocalhost), b)
  {
  }

  /** Other spellings of the loopback interface are not localhost and are trusted only if
      the configuration lists them. */
  lemma OtherLoopbackSpellings(localServer: Option<set<string>>)
    ensures !IsLocalhost(Some("localhost")) && !IsLocalhost(Some("127.0.0.2")) && !IsLocalhost(Some("::1"))
    ensures IsIpTrusted(Some("::1"), localServer) <==> localServer.Some? && "::1" in localServer.value
  {
    assert "localhost" != IpLocalhost && "::1" != IpLocalhost;
    assert "127.0.0.2"[8] != IpLocalhost[8];
  }
}

/** Which address a request counts against (`app/net.py`). Address parsing and network membership
    are parameters; everything around them is as in the source. */
module ClientIp {
  import opened Text
  import opened Wrappers

  type Address = int

  /** `parse` is `ip_address`, `contains` is membership in `ip_network(text)`; None is ValueError. */
  datatype Network = Network(parse: string -> Option<Address>, contains: (Address, string) -> Option<bool>)

  predicate Listed(net: Network, ip: Address, item: string)
  {
    Strip(item) != "" && net.contains(ip, Strip(item)) == Some(true)
  }

  predicate Trusted(net: Network, trusted: seq<string>, ip: string)
  {
    net.parse(ip).Some? && exists i | 0 <= i < |trusted| :: Listed(net, net.parse(ip).value, trusted[i])
  }

  method IsTrustedProxy(net: Network, remoteIp: string, trusted: seq<string>) returns (r: bool)
    ensures r <==> Trusted(net, trusted, remoteIp)
  {
    var remote := net.parse(remoteIp);
    if remote.None? {
      return false;
    }
    for i := 0 to |trusted|
      invariant forall j | 0 <= j < i :: !Listed(net, remote.value, trusted[j])
    {
      var candidate := Strip(trusted[i]);
      if candidate != "" && net.contains(remote.value, candidate) == Some(true) {
        assert Listed(net, remote.value, trusted[i]);
        return true;
      }
    }
    return false;
  }

  /** The entries that parse as addresses, in order. */
  function Parsable(net: Network, entries: seq<string>): seq<string>
  {
    if entries == [] then []
    else Parsable(net, entries[..|entries| - 1])
         + if net.parse(entries[|entries| - 1]).Some? then [entries[|entries| - 1]] else []
  }

  function Hops(net: Network, header: string): seq<string>
  {
    Parsable(net, Items(header))
  }

  /** Walking in from the right: the first untrusted hop, else the leftmost. */
  function Walk(net: Network, trusted: seq<string>, hops: seq<string>, n: nat): string
    requires hops != [] && n <= |hops|
  {
    if n == 0 then hops[0]
    else if !Trusted(net, trusted, hops[n - 1]) then hops[n - 1]
    else Walk(net, trusted, hops, n - 1)
  }

  datatype Settings = Settings(trustForwardedFor: bool, trustedProxies: seq<string>)

  function Resolved(net: Network, settings: Settings, remote: Option<string>, header: Option<string>): string
  {
    var remoteIp := if remote.Some? then remote.value else "unknown";
    if !settings.trustForwardedFor || !Trusted(net, settings.trustedProxies, remoteIp) then remoteIp
    else if header == None || header.value == "" then remoteIp
    else
      var hops := Hops(net, header.value);
      if hops == [] then remoteIp else Walk(net, settings.trustedProxies, hops, |hops|)
  }

  method GetClientIp(net: Network, settings: Settings, remote: Option<string>, header: Option<string>)
    returns (ip: string)
    ensures ip == Resolved(net, settings, remote, header)
  {
    var remoteIp := if remote.Some? then remote.value else "unknown";
    if !settings.trustForwardedFor {
      return remoteIp;
    }
    var proxied := IsTrustedProxy(net, remoteIp, settings.trustedProxies);
    if !proxied {
      return remoteIp;
    }
    if header == None || header.value == "" {
      return remoteIp;
    }
    var hops := ValidEntries(net, Items(header.value));
    if hops == [] {
      return remoteIp;
    }
    ip := WalkFromRight(net, settings.trustedProxies, hops);
  }

  method ValidEntries(net: Network, entries: seq<string>) returns (hops: seq<string>)
    ensures hops == Parsable(net, entries)
  {
    hops := [];
    for i := 0 to |entries|
      invariant hops == Parsable(net, entries[..i])
    {
      assert entries[..i + 1][..i] == entries[..i];
      if net.parse(entries[i]).Some? {
        hops := hops + [entries[i]];
      }
    }
    assert entries[..|entries|] == entries;
  }

  method WalkFromRight(net: Network, trusted: seq<string>, hops: seq<string>) returns (ip: string)
    requires hops != []
    ensures ip == Walk(net, trusted, hops, |hops|)
  {
    var n := |hops|;
    while n > 0
      invariant 0 <= n <= |hops|
      invariant Walk(net, trusted, hops, |hops|) == Walk(net, trusted, hops, n)
    {
      var known := IsTrustedProxy(net, hops[n - 1], trusted);
      if !known {
        return hops[n - 1];
      }
      n := n - 1;
    }
    return hops[0];
  }

  // ---------------------------------------------------------------- what the walk returns

  /** `k` is the rightmost untrusted hop. */
  ghost predicate RightmostUntrusted(net: Network, trusted: seq<string>, hops: seq<string>, k: nat)
  {
    k < |hops| && !Trusted(net, trusted, hops[k]) && forall j | k < j < |hops| :: Trusted(net, trusted, hops[j])
  }

  ghost predicate HasUntrusted(net: Network, trusted: seq<string>, hops: seq<string>)
  {
    exists i | 0 <= i < |hops| :: !Trusted(net, trusted, hops[i])
  }

  /** The walk returns the one untrusted hop with only trusted hops to its right, if there is one,
      and otherwise the leftmost hop. */
  lemma {:induction false} WalkFindsRightmostUntrusted(net: Network, trusted: seq<string>, hops: seq<string>, n: nat)
    requires hops != [] && n <= |hops| && forall j | n <= j < |hops| :: Trusted(net, trusted, hops[j])
    ensures HasUntrusted(net, trusted, hops) ==>
      exists k: nat :: RightmostUntrusted(net, trusted, hops, k) && Walk(net, trusted, hops, n) == hops[k]
    ensures !HasUntrusted(net, trusted, hops) ==> Walk(net, trusted, hops, n) == hops[0]
  {
    if n > 0 {
      if Trusted(net, trusted, hops[n - 1]) {
        WalkFindsRightmostUntrusted(net, trusted, hops, n - 1);
      } else {
        assert RightmostUntrusted(net, trusted, hops, n - 1);
      }
    }
  }

  lemma {:induction false} RightmostUntrustedUnique(net: Network, trusted: seq<string>, hops: seq<string>,
                                                    k: nat, l: nat)
    requires RightmostUntrusted(net, trusted, hops, k) && RightmostUntrusted(net, trusted, hops, l)
    ensures k == l
  {
  }

  /** The header only counts behind a trusted proxy, and only if it names an address: otherwise the
      result is the remote address, whatever the header says. */
  lemma {:induction false} HeaderIgnored(net: Network, settings: Settings, remote: Option<string>,
                                         header: Option<string>)
    requires var from := if remote.Some? then remote.value else "unknown";
      || !settings.trustForwardedFor || !Trusted(net, settings.trustedProxies, from)
      || header == None || Hops(net, header.value) == []
    ensures Resolved(net, settings, remote, header) == if remote.Some? then remote.value else "unknown"
  {
  }

  /** Behind a trusted proxy a header that names an address decides: the result is one of its
      entries, a parsable one. */
  lemma {:induction false} HeaderDecides(net: Network, settings: Settings, remote: string, header: string)
    requires settings.trustForwardedFor && Trusted(net, settings.trustedProxies, remote) && Hops(net, header) != []
    ensures Resolved(net, settings, Some(remote), Some(header))
         == Walk(net, settings.trustedProxies, Hops(net, header), |Hops(net, header)|)
    ensures Resolved(net, settings, Some(remote), Some(header)) in Items(header)
    ensures net.parse(Resolved(net, settings, Some(remote), Some(header))).Some?
  {
    var hops := Hops(net, header);
    NoItemsInEmpty();
    WalkStays(net, settings.trustedProxies, hops, |hops|);
    ParsableMembers(net, Items(header));
  }

  lemma {:induction false} NoItemsInEmpty()
    ensures Items("") == []
  {
    assert Split("") == [""] && Strip("") == "";
    assert [""][1..] == [];
  }

  lemma {:induction false} WalkStays(net: Network, trusted: seq<string>, hops: seq<string>, n: nat)
    requires hops != [] && n <= |hops|
    ensures Walk(net, trusted, hops, n) in hops
  {
    if n > 0 {
      WalkStays(net, trusted, hops, n - 1);
    }
  }

  lemma {:induction false} ParsableMembers(net: Network, entries: seq<string>)
    ensures forall e :: e in Parsable(net, entries) <==> e in entries && net.parse(e).Some?
  {
    if entries != [] {
      var n := |entries| - 1;
      ParsableMembers(net, entries[..n]);
      assert entries == entries[..n] + [entries[n]];
    }
  }

  // ---------------------------------------------------------------- prepending

  lemma {:induction false} ParsableConcat(net: Network, a: seq<string>, b: seq<string>)
    ensures Parsable(net, a + b) == Parsable(net, a) + Parsable(net, b)
  {
    if b == [] {
      assert a + b == a;
    } else {
      assert (a + b)[..|a + b| - 1] == a + b[..|b| - 1];
      ParsableConcat(net, a, b[..|b| - 1]);
    }
  }

  /** Text put in front of a header only adds hops on the left. */
  lemma {:induction false} HopsOfPrepended(net: Network, text: string, header: string)
    ensures Hops(net, text + "," + header) == Hops(net, text) + Hops(net, header)
  {
    SplitAtComma(text, header);
    CleanConcat(Split(text), Split(header));
    ParsableConcat(net, Items(text), Items(header));
  }

  lemma {:induction false} WalkIgnoresLeft(net: Network, trusted: seq<string>, left: seq<string>, hops: seq<string>)
    requires hops != [] && HasUntrusted(net, trusted, hops)
    ensures Walk(net, trusted, left + hops, |left + hops|) == Walk(net, trusted, hops, |hops|)
  {
    var all := left + hops;
    WalkFindsRightmostUntrusted(net, trusted, hops, |hops|);
    var k: nat :| RightmostUntrusted(net, trusted, hops, k) && Walk(net, trusted, hops, |hops|) == hops[k];
    assert all[|left| + k] == hops[k];
    assert HasUntrusted(net, trusted, all);
    WalkFindsRightmostUntrusted(net, trusted, all, |all|);
    var l: nat :| RightmostUntrusted(net, trusted, all, l) && Walk(net, trusted, all, |all|) == all[l];
    forall j | |left| + k < j < |all|
      ensures Trusted(net, trusted, all[j])
    {
      assert all[j] == hops[j - |left|];
    }
    RightmostUntrustedUnique(net, trusted, all, |left| + k, l);
  }

  /** Behind a trusted proxy, text prepended to a header that names a valid untrusted hop never
      changes the client address. */
  lemma {:induction false} PrependingIsHarmless(net: Network, settings: Settings, remote: Option<string>,
                                                header: string, text: string)
    requires HasUntrusted(net, settings.trustedProxies, Hops(net, header))
    ensures Resolved(net, settings, remote, Some(text + "," + header)) == Resolved(net, settings, remote, Some(header))
  {
    var hops := Hops(net, header);
    HopsOfPrepended(net, text, header);
    WalkIgnoresLeft(net, settings.trustedProxies, Hops(net, text), hops);
  }

  lemma {:induction false} HopsOfOne(net: Network, a: string)
    requires IsItem(a) && net.parse(a).Some?
    ensures Hops(net, a) == [a]
  {
    SplitWithoutComma(a);
    CleanOfItems([a]);
    assert Items(a) == [a] && [a][..|[a]| - 1] == [];
    assert Parsable(net, [a]) == Parsable(net, []) + [a];
  }

  /** Without such a hop, any valid address put in front becomes the client address. */
  lemma {:induction false} PrependedAddressWins(net: Network, settings: Settings, remote: string,
                                                header: string, a: string)
    requires settings.trustForwardedFor && Trusted(net, settings.trustedProxies, remote)
    requires !HasUntrusted(net, settings.trustedProxies, Hops(net, header))
    requires IsItem(a) && net.parse(a).Some?
    ensures Resolved(net, settings, Some(remote), Some(a + "," + header)) == a
  {
    HopsOfOne(net, a);
    HopsOfPrepended(net, a, header);
    var all := Hops(net, a + "," + header);
    assert all == [a] + Hops(net, header);
    WalkToFirst(net, settings.trustedProxies, a, Hops(net, header), |all|);
  }

  /** A walk over trusted hops ends at the first one, whatever that one is. */
  lemma {:induction false} WalkToFirst(net: Network, trusted: seq<string>, a: string, hops: seq<string>, n: nat)
    requires !HasUntrusted(net, trusted, hops) && n <= |[a] + hops|
    ensures Walk(net, trusted, [a] + hops, n) == a
  {
    if n > 1 {
      assert ([a] + hops)[n - 1] == hops[n - 2];
      WalkToFirst(net, trusted, a, hops, n - 1);
    }
  }

  /** Exactly when prepending is harmless: the header names a valid untrusted hop (as soon as there
      are two different addresses to try). */
  lemma {:induction false} PrependingHarmlessIff(net: Network, settings: Settings, remote: string,
                                                 header: string, a: string, b: string)
    requires settings.trustForwardedFor && Trusted(net, settings.trustedProxies, remote)
    requires IsItem(a) && IsItem(b) && net.parse(a).Some? && net.parse(b).Some? && a != b
    ensures (forall text :: Resolved(net, settings, Some(remote), Some(text + "," + header))
                         == Resolved(net, settings, Some(remote), Some(header)))
       <==> HasUntrusted(net, settings.trustedProxies, Hops(net, header))
  {
    if HasUntrusted(net, settings.trustedProxies, Hops(net, header)) {
      forall text
        ensures Resolved(net, settings, Some(remote), Some(text + "," + header))
             == Resolved(net, settings, Some(remote), Some(header))
      {
        PrependingIsHarmless(net, settings, Some(remote), header, text);
      }
    } else {
      PrependedAddressWins(net, settings, remote, header, a);
      PrependedAddressWins(net, settings, remote, header, b);
    }
  }
}

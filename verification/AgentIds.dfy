/** Agent ids built from chain coordinates (packages/watchtower-core/src/identity/identityTypes.ts). */
module AgentIds {
  import opened Texts
  import opened Options

  datatype Coordinates = Coordinates(chainId: int, registryAddress: Text, tokenId: Text)

  const ERC8004: Text := [0x65, 0x72, 0x63, 0x38, 0x30, 0x30, 0x34]

  function MakeAgentId(chainId: int, registryAddress: Text, tokenId: Text): Text {
    ERC8004 + [COLON] + Numeral(chainId) + [COLON] + Lower(registryAddress) + [COLON] + tokenId
  }

  function ParseAgentId(agentId: Text): Option<Coordinates> {
    var parts := Split(agentId, COLON);
    if |parts| != 4 || parts[0] != ERC8004 then None
    else
      var chainId := ParseInt(parts[1]);
      if chainId.None? then None else Some(Coordinates(chainId.value, parts[2], parts[3]))
  }

  lemma {:induction false} PartsOfColons(t: Text)
    ensures |Split(t, COLON)| == 1 <==> COLON !in t
  {
    if t != [] {
      PartsOfColons(t[1..]);
    }
  }

  lemma LowerKeepsColons(t: Text)
    ensures COLON in Lower(t) <==> COLON in t
  {
    if COLON in Lower(t) {
      var i :| 0 <= i < |t| && Lower(t)[i] == COLON;
      assert t[i] == COLON;
    }
    if COLON in t {
      var i :| 0 <= i < |t| && t[i] == COLON;
      assert Lower(t)[i] == COLON;
    }
  }

  lemma Nested(a: Text, b: Text, c: Text, d: Text)
    ensures a + [COLON] + b + [COLON] + c + [COLON] + d == a + [COLON] + (b + [COLON] + (c + [COLON] + d))
  {
    var front := a + [COLON] + b + [COLON];
    assert front + c + [COLON] + d == front + (c + [COLON] + d);
  }

  lemma SplitTwo(a: Text, b: Text, rest: Text)
    requires COLON !in a && COLON !in b
    ensures Split(a + [COLON] + (b + [COLON] + rest), COLON) == [a, b] + Split(rest, COLON)
  {
    SplitConcat(a, b + [COLON] + rest, COLON);
    SplitConcat(b, rest, COLON);
    assert [a] + ([b] + Split(rest, COLON)) == [a, b] + Split(rest, COLON);
  }

  /** The parts of an id: the prefix, the chain, and the parts of address and token. */
  lemma AgentIdParts(chainId: int, registryAddress: Text, tokenId: Text)
    ensures Split(MakeAgentId(chainId, registryAddress, tokenId), COLON) ==
              [ERC8004, Numeral(chainId)] + Split(Lower(registryAddress) + [COLON] + tokenId, COLON)
  {
    ParseNumeral(chainId);
    Nested(ERC8004, Numeral(chainId), Lower(registryAddress), tokenId);
    SplitTwo(ERC8004, Numeral(chainId), Lower(registryAddress) + [COLON] + tokenId);
  }

  lemma {:induction false} SplitCount(a: Text, b: Text)
    ensures |Split(a + [COLON] + b, COLON)| == |Split(a, COLON)| + |Split(b, COLON)|
  {
    var t := a + [COLON] + b;
    if a == [] {
      assert t[1..] == b;
    } else {
      assert t[1..] == a[1..] + [COLON] + b && t[0] == a[0];
      SplitCount(a[1..], b);
    }
  }

  /** An id parses at all exactly when address and token are colon-free, and then to the coordinates it was made of. */
  lemma AgentIdRoundTrip(chainId: int, registryAddress: Text, tokenId: Text)
    ensures
      var parsed := ParseAgentId(MakeAgentId(chainId, registryAddress, tokenId));
      parsed == if COLON in registryAddress || COLON in tokenId then None
                else Some(Coordinates(chainId, Lower(registryAddress), tokenId))
    ensures MakeAgentId(chainId, registryAddress, tokenId) ==
              Ascii("erc8004:") + Numeral(chainId) + [COLON] + Lower(registryAddress) + [COLON] + tokenId
  {
    assert Ascii("erc8004:") == ERC8004 + [COLON];
    var address := Lower(registryAddress);
    AgentIdParts(chainId, registryAddress, tokenId);
    ParseNumeral(chainId);
    LowerKeepsColons(registryAddress);
    SplitCount(address, tokenId);
    PartsOfColons(address);
    PartsOfColons(tokenId);
    if COLON !in address {
      SplitConcat(address, tokenId, COLON);
    }
  }

  /** The id of a chain text, an address and a token. */
  function Form(chain: Text, address: Text, token: Text): Text {
    ERC8004 + [COLON] + chain + [COLON] + address + [COLON] + token
  }

  /** Only texts of this form parse: the prefix, a chain, an address and a token. */
  lemma ParsedHasForm(agentId: Text, x: Coordinates)
    requires ParseAgentId(agentId) == Some(x)
    ensures Ascii("erc8004") == ERC8004
    ensures exists chain: Text :: ParseInt(chain) == Some(x.chainId) && agentId == Form(chain, x.registryAddress, x.tokenId)
  {
    var parts := Split(agentId, COLON);
    JoinSplit(agentId, COLON);
    JoinFour(parts[0], parts[1], parts[2], parts[3]);
    assert parts == [parts[0], parts[1], parts[2], parts[3]];
    assert agentId == Form(parts[1], x.registryAddress, x.tokenId);
  }

  lemma JoinFour(a: Text, b: Text, c: Text, d: Text)
    ensures Join([a, b, c, d], COLON) == a + [COLON] + b + [COLON] + c + [COLON] + d
  {
    Nested(a, b, c, d);
    assert [a, b, c, d][1..] == [b, c, d] && [b, c, d][1..] == [c, d] && [c, d][1..] == [d];
    assert Join([c, d], COLON) == c + [COLON] + d;
    assert Join([b, c, d], COLON) == b + [COLON] + (c + [COLON] + d);
  }
}

/** `toAddress` and `toAddresses`: the addresses an output script pays to.

    Address construction and encoding, and the hash160 digest (SHA-256 then
    RIPEMD-160), belong to other libraries: an address is kept as its three
    constructor arguments and the digest is a parameter. The library's
    process-wide default network is a parameter as well. */
module Addresses {
  import opened Wrappers
  import opened Chunks
  import opened Templates

  /** The version argument given to `new Address`, as well as the answer of
      `Address.getType`. */
  datatype AddressType = PubKeyHashAddress | ScriptHashAddress | OtherAddress

  /** `new Address(hash, version, network)`. */
  datatype Address = Address(hash: seq<byte>, version: AddressType, network: string)

  /** `network || defaultNetwork`: the empty string stands for a missing
      (falsy) network. */
  function NetworkOr(network: string, defaultNetwork: string): (n: string)
    ensures network != "" ==> n == network
    ensures network == "" ==> n == defaultNetwork
  {
    if network == "" then defaultNetwork else network
  }

  /** `toAddress`: the address of a pubkeyhash, pubkey or scripthash output,
      and `false` (here `None`) for every other script. */
  function ToAddress(cs: seq<Chunk>, network: string, defaultNetwork: string,
                     hash160: seq<byte> -> seq<byte>): (r: Option<Address>)
    ensures r.Some? <==> GetOutType(cs) in {PubKeyHash, PubKey, ScriptHash}
    ensures r.Some? ==> r.value.network == NetworkOr(network, defaultNetwork)
    ensures r.Some? ==> (r.value.version == ScriptHashAddress <==> GetOutType(cs) == ScriptHash)
  {
    var net := NetworkOr(network, defaultNetwork);
    match GetOutType(cs)
    case PubKeyHash => Some(Address(cs[2].bytes, PubKeyHashAddress, net))
    case PubKey => Some(Address(hash160(cs[0].bytes), PubKeyHashAddress, net))
    case ScriptHash => Some(Address(cs[1].bytes, ScriptHashAddress, net))
    case _ => None
  }

  /** `toAddresses`: one address per key of a multisig output, in order;
      otherwise the single address of `toAddress`, which is called without
      the network argument. */
  function ToAddresses(cs: seq<Chunk>, network: string, defaultNetwork: string,
                       hash160: seq<byte> -> seq<byte>): Option<seq<Address>>
  {
    if GetOutType(cs) == Multisig then
      var net := NetworkOr(network, defaultNetwork);
      Some(seq(|cs| - 3, k requires 0 <= k < |cs| - 3 => Address(hash160(cs[k + 1].bytes), PubKeyHashAddress, net)))
    else
      match ToAddress(cs, "", defaultNetwork, hash160)
      case Some(a) => Some([a])
      case None => None
  }

  /** A multisig output yields exactly one pubkeyhash address per key, in
      chunk order, whatever `m` is. */
  lemma ToAddressesOfMultisig(mOp: int, keys: seq<seq<byte>>, network: string, defaultNetwork: string,
                              hash160: seq<byte> -> seq<byte>)
    requires MultisigParams(mOp, |keys|)
    ensures var r := ToAddresses(MultisigScript(mOp, keys), network, defaultNetwork, hash160);
      && r.Some? && |r.value| == |keys|
      && forall k :: 0 <= k < |keys| ==>
           r.value[k] == Address(hash160(keys[k]), PubKeyHashAddress, NetworkOr(network, defaultNetwork))
  {
    MultisigScriptIsMultisig(mOp, keys);
    MultisigScriptShape(mOp, keys);
    var cs := MultisigScript(mOp, keys);
    assert forall k :: 0 <= k < |keys| ==> cs[k + 1] == Data(keys[k]) by {
      forall k | 0 <= k < |keys| ensures cs[k + 1] == Data(keys[k]) {
        assert cs[1..|cs| - 2][k] == cs[k + 1];
      }
    }
  }

  /** Outside the multisig case the network argument is ignored: the result
      always carries the default network. */
  lemma ToAddressesDropsNetwork(cs: seq<Chunk>, network: string, defaultNetwork: string,
                                hash160: seq<byte> -> seq<byte>)
    requires GetOutType(cs) != Multisig
    ensures ToAddresses(cs, network, defaultNetwork, hash160) == ToAddresses(cs, "", defaultNetwork, hash160)
    ensures var r := ToAddresses(cs, network, defaultNetwork, hash160);
      && (r.Some? <==> ToAddress(cs, network, defaultNetwork, hash160).Some?)
      && (r.Some? ==> |r.value| == 1 && r.value[0].network == defaultNetwork)
  {
  }

  /** The output script `createOutputScript` builds for an address of the
      given type: pay-to-pubkey-hash, pay-to-script-hash, or none. */
  function OutputScript(hash: seq<byte>, t: AddressType): (r: Option<seq<Chunk>>)
    ensures r.None? <==> t == OtherAddress
    ensures r.Some? ==> Data(hash) in r.value
    ensures r.Some? && |hash| == 20 ==>
      GetOutType(r.value) == if t == PubKeyHashAddress then PubKeyHash else ScriptHash
  {
    OutTypePubKeyHash(PayToPubKeyHash(hash));
    OutTypeScriptHash(PayToScriptHash(hash));
    match t
    case PubKeyHashAddress => Some(PayToPubKeyHash(hash))
    case ScriptHashAddress => Some(PayToScriptHash(hash))
    case OtherAddress => None
  }

  /** Round trip: the address read back from the output script built for
      it has the same hash and type, on the network asked for. */
  lemma ToAddressOfOutputScript(hash: seq<byte>, t: AddressType, network: string, defaultNetwork: string,
                                hash160: seq<byte> -> seq<byte>)
    requires |hash| == 20 && t != OtherAddress
    ensures ToAddress(OutputScript(hash, t).value, network, defaultNetwork, hash160)
         == Some(Address(hash, t, NetworkOr(network, defaultNetwork)))
  {
  }

  /** A pay-to-pubkey output pays to the hash of its key. */
  lemma ToAddressOfPubKey(pubkey: seq<byte>, network: string, defaultNetwork: string,
                          hash160: seq<byte> -> seq<byte>)
    ensures ToAddress(PayToPubKey(pubkey), network, defaultNetwork, hash160)
         == Some(Address(hash160(pubkey), PubKeyHashAddress, NetworkOr(network, defaultNetwork)))
  {
  }
}

/** internal/prp/role.go and the runtime configuration of internal/prp/prp.go. */
module Role {
  import opened Bytes

  datatype Port = LanA | LanB | Interlink

  const ALL := {LanA, LanB, Interlink}

  function OtherRingPort(port: Port): Port {
    if port == LanB then LanA else LanB
  }

  datatype Role = PrpSan | HsrSan | HsrPrp | HsrHsr

  /**
   * What a running node is configured with. `lanB` says that a coupling node's interlink is PRP LAN B, `mac` is empty when
   * the node has no address, `seqStart` is the random first sequence number of this
   * incarnation and `hasInterlink` says whether the third port is bound.
   */
  datatype Config = Config(
    role: Role, mac: Mac, seqStart: Word, hasInterlink: bool,
    lanB: bool, netId: int, trailerEnabled: bool, forwardAll: bool,
    vlanFilter: seq<int>, multicastFirstOctet: string,
    entryForgetMs: int, maxNodeTableSize: int, proxyNodeForgetMs: int, nodeForgetMs: int)
  {
    predicate IsHsr() { role != PrpSan }
    predicate IsCoupling() { role == HsrPrp }
    predicate IsQuadBox() { role == HsrHsr }

    /** The PRP LAN behind a coupling node: 1 exactly for LAN B. */
    function Lan(): (l: nat)
      ensures l <= 1 && (l == 1 <==> role == HsrPrp && lanB)
    {
      if IsCoupling() && lanB then 1 else 0
    }

    /** The configured NetId of a coupling node, 1 where none is configured. */
    function Net(): (n: nat)
      ensures n >= 1 && (role == HsrPrp && netId > 0 ==> n == netId)
      ensures role != HsrPrp || netId <= 0 ==> n == 1
    {
      if IsCoupling() && netId > 0 then netId else 1
    }

    /** Configured limits count where they are positive; the defaults are those of the source. */
    function ForgetMs(): (t: int)
      ensures t > 0 && (entryForgetMs > 0 ==> t == entryForgetMs) && (entryForgetMs <= 0 ==> t == 640)
    {
      if entryForgetMs > 0 then entryForgetMs else 640
    }

    function MaxTable(): (n: int)
      ensures n > 0 && (maxNodeTableSize > 0 ==> n == maxNodeTableSize) && (maxNodeTableSize <= 0 ==> n == 256)
    {
      if maxNodeTableSize > 0 then maxNodeTableSize else 256
    }

    function ProxyForgetMs(): (t: int)
      ensures (proxyNodeForgetMs > 0 ==> t == proxyNodeForgetMs) && (proxyNodeForgetMs <= 0 ==> t == 64000)
    {
      if proxyNodeForgetMs > 0 then proxyNodeForgetMs else 64000
    }

    function NodeForgetMs(): (t: int)
      ensures (nodeForgetMs > 0 ==> t == nodeForgetMs) && (nodeForgetMs <= 0 ==> t == 64000)
    {
      if nodeForgetMs > 0 then nodeForgetMs else 64000
    }

    /** Ports that carry HSR-tagged traffic: the ring, and a QuadBox's interlink. */
    function HsrPorts(): set<Port> {
      if !IsHsr() then {}
      else if IsQuadBox() && hasInterlink then {LanA, LanB, Interlink}
      else {LanA, LanB}
    }

    /** hsr-san and hsr-prp nodes write to their interlink without checking that it is bound. */
    predicate Valid() {
      (role == HsrSan || role == HsrPrp) ==> hasInterlink
    }
  }
}

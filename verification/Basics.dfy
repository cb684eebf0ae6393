/** Values shared by every part of the model: results, errors and IPv4 addresses. */
module Basics {

  datatype Option<+T> = None | Some(value: T)

  /** The variants of the daemon's error type that the modelled code can raise (message texts dropped). */
  datatype Error =
    | Config
    | Io
    | NoEthernet
    | NotEthernet(name: string)
    | DnsmasqMissing
    | DhclientMissing
    | DhcpProbe
    | Other

  datatype Result<+T> = Ok(value: T) | Err(error: Error)

  type byte = x: int | 0 <= x < 256

  datatype Ip = Ip(a: byte, b: byte, c: byte, d: byte)

  /** An address with its prefix length, `a.b.c.d/nn`. */
  datatype Cidr = Cidr(ip: Ip, prefix: nat)

  /** 169.254.0.0/16 */
  predicate LinkLocal(c: Cidr) {
    c.ip.a == 169 && c.ip.b == 254
  }

  /**
   * A name ending in `inet` runs into the word `inet ` that the reader of `ip addr` output looks for, so the
   * addresses of such an interface are never read (proved in module Addr).
   */
  predicate HidesAddress(name: string) {
    |name| >= 4 && name[|name| - 4..] == "inet"
  }

  /** The address to report out of a list: the first one that is not link-local, else the first. */
  function FirstCidr(cs: seq<Cidr>): (r: Option<Cidr>)
    ensures r.None? <==> cs == []
    ensures r.Some? ==> r.value in cs
    ensures r.Some? && LinkLocal(r.value) ==> forall c :: c in cs ==> LinkLocal(c)
  {
    if cs == [] then None
    else if !LinkLocal(cs[0]) then Some(cs[0])
    else
      var rest := FirstCidr(cs[1..]);
      if rest.Some? && !LinkLocal(rest.value) then rest else Some(cs[0])
  }
}

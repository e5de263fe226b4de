/** Destinations as the proxy sees them (crates/core/src/flow.rs, crates/daemon/src/proxy.rs). */
module Net {
  import opened Bytes

  datatype IpRaw = V4(octets: Octets) | V6(octets: Octets)
  predicate IpShape(ip: IpRaw) { |ip.octets| == if ip.V4? then 4 else 16 }
  type Ip = ip: IpRaw | IpShape(ip) witness V4([0, 0, 0, 0])

  datatype Host = Domain(name: Octets) | Address(ip: Ip)

  datatype Target = Target(host: Host, port: U16)

  /** A Rust `String` holds UTF-8; hosts carry their names as raw octets, so this is the type's own invariant. */
  predicate HostTyped(h: Host) { h.Domain? ==> IsUtf8(h.name) }

  /** `Target::new` refuses port zero. */
  function NewTarget(host: Host, port: U16): Option<Target>
  {
    if port == 0 then None else Some(Target(host, port))
  }
}

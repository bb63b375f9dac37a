/** Hardware addresses derived from a hash, and perturbed until they are unused. */
module Macs {
  import opened Wire

  /** A derivation: the hardware address for an IP under a collision salt (0 is the natural one). */
  type Derivation = (u32, nat) -> Mac

  ghost predicate HasFresh(derive: Derivation, ip: u32, used: set<Mac>) {
    exists salt: nat :: derive(ip, salt) !in used
  }

  /** Enough salts lead somewhere new: no `n` addresses exhaust a derivation. */
  ghost predicate Spreads(derive: Derivation, n: nat) {
    forall ip: u32, used: set<Mac> :: |used| <= n ==> HasFresh(derive, ip, used)
  }

  /** `mac` is what the salt loop would settle on for `ip`, were `used` all that is in use. */
  ghost predicate FirstSalt(derive: Derivation, used: set<Mac>, ip: u32, mac: Mac) {
    exists salt: nat :: mac == derive(ip, salt) && forall s: nat :: s < salt ==> derive(ip, s) in used
  }

  lemma FirstSaltMore(derive: Derivation, used: set<Mac>, more: set<Mac>, ip: u32, mac: Mac)
    requires FirstSalt(derive, used, ip, mac) && used <= more
    ensures FirstSalt(derive, more, ip, mac)
  {
  }

  /** The first salt whose address is unused. */
  method FreshMac(derive: Derivation, ip: u32, used: set<Mac>) returns (mac: Mac, salt: nat)
    requires HasFresh(derive, ip, used)
    ensures mac == derive(ip, salt) && mac !in used
    ensures forall s: nat :: s < salt ==> derive(ip, s) in used
    ensures FirstSalt(derive, used, ip, mac)
  {
    salt := 0;
    mac := derive(ip, salt);
    ghost var stop: nat :| derive(ip, stop) !in used;
    while mac in used
      invariant salt <= stop && mac == derive(ip, salt)
      invariant forall s: nat :: s < salt ==> derive(ip, s) in used
      decreases stop - salt
    {
      salt := salt + 1;
      mac := derive(ip, salt);
    }
  }
}

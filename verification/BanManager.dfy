/**
 * The ban manager when its calls do not overlap: a map from banned addresses to the
 * moment their ban ends, kept in step with the kernel's set of blocked addresses.
 */
module BanManager {

  type Ip = nat

  /** What a sweep at `now` keeps: bans that have not ended, and those it failed to lift. */
  ghost function Kept(banned: map<Ip, nat>, now: nat, stuck: set<Ip>): (kept: map<Ip, nat>) {
    map ip | ip in banned && (banned[ip] > now || ip in stuck) :: banned[ip]
  }

  class Manager {
    const hasLimiter: bool
    var kernel: set<Ip>
    var banned: map<Ip, nat>

    /** The kernel blocks exactly the addresses that have an entry. */
    ghost predicate Valid()
      reads this
    {
      kernel == banned.Keys && (!hasLimiter ==> banned == map[])
    }

    constructor (hasLimiter: bool)
      ensures Valid() && banned == map[] && this.hasLimiter == hasLimiter
    {
      this.hasLimiter := hasLimiter;
      kernel, banned := {}, map[];
    }

    /** `blocks` says whether the kernel accepts the block. */
    method BanIp(ip: Ip, duration: nat, now: nat, blocks: bool)
      requires Valid()
      modifies this
      ensures Valid()
      ensures banned == if hasLimiter && blocks then old(banned)[ip := now + duration] else old(banned)
    {
      if hasLimiter {
        if blocks {
          kernel := kernel + {ip};
          banned := banned[ip := now + duration];
        }
      }
    }

    /** An address counts as banned until its entry is swept, even after the ban has ended. */
    method IsIpBanned(ip: Ip, now: nat) returns (b: bool)
      ensures Valid() ==> (b <==> ip in banned)
      ensures ip in banned && banned[ip] > now ==> b
      ensures b ==> ip in kernel || (ip in banned && banned[ip] > now)
    {
      if hasLimiter {
        if ip in kernel {
          return true;
        }
      }
      if ip in banned {
        return banned[ip] > now;
      } else {
        return false;
      }
    }

    /** One tick of the sweeper; `stuck` are the addresses that the kernel refuses to unblock. */
    method Sweep(now: nat, stuck: set<Ip>)
      requires Valid()
      modifies this
      ensures Valid()
      ensures banned == Kept(old(banned), now, stuck)
    {
      if !hasLimiter {
        return;
      }
      var todo := banned.Keys;
      while todo != {}
        invariant todo <= banned.Keys <= old(banned).Keys
        invariant forall ip :: ip in banned ==> banned[ip] == old(banned)[ip]
        invariant forall ip :: ip in todo ==> ip in banned
        invariant forall ip :: ip in old(banned) && ip !in todo ==>
                    (ip in banned <==> old(banned)[ip] > now || ip in stuck)
        invariant kernel == banned.Keys
        decreases |todo|
      {
        var ip :| ip in todo;
        todo := todo - {ip};
        if banned[ip] <= now {
          if ip !in stuck {
            kernel := kernel - {ip};
            banned := banned - {ip};
          }
        }
      }
    }
  }
}

/** The per-IP limiter of internal/middleware/ratelimit.go, as the class it is and as a map from
    addresses to buckets, with one request (get and Allow) as one step. */
module RateLimit {
  import opened GoStrings
  import opened TokenBucket

  datatype Entry = Entry(bucket: Bucket, lastSeen: real)

  type Table = map<Str, Entry>

  function GetEntry(cfg: Config, m: Table, ip: Str, now: real): Table {
    m[ip := Entry(if ip in m then m[ip].bucket else Full(cfg, now), now)]
  }

  function Reap(cfg: Config, m: Table, now: real): Table {
    map ip | ip in m && now - m[ip].lastSeen <= cfg.ttl :: m[ip]
  }

  function Request(cfg: Config, m: Table, ip: Str, now: real): (Table, bool) {
    var got := GetEntry(cfg, m, ip, now);
    var (b, ok) := Allow(cfg, got[ip].bucket, now);
    (got[ip := Entry(b, now)], ok)
  }

  // ---- the class ----

  class Limiter {
    const cfg: Config
    var tokens: real
    var last: real

    constructor (cfg: Config, now: real)
      ensures this.cfg == cfg && View() == Full(cfg, now)
    {
      this.cfg := cfg;
      tokens := cfg.burst as real;
      last := now;
    }

    function View(): Bucket
      reads this
    {
      Bucket(tokens, last)
    }

    method AllowNow(now: real) returns (ok: bool)
      modifies this
      ensures (View(), ok) == Allow(cfg, old(View()), now)
    {
      ghost var b := View();
      var t := tokens + cfg.rps * (now - last);
      if t > cfg.burst as real {
        t := cfg.burst as real;
      }
      assert t == Avail(cfg, b, now);
      ok := t >= 1.0;
      if ok {
        tokens, last := t - 1.0, now;
      }
    }
  }

  class Client {
    const limiter: Limiter
    var lastSeen: real

    constructor (limiter: Limiter, now: real)
      ensures this.limiter == limiter && lastSeen == now
    {
      this.limiter := limiter;
      lastSeen := now;
    }
  }

  class IpLimiter {
    const cfg: Config
    var clients: map<Str, Client>

    constructor (cfg: Config)
      ensures this.cfg == cfg && Valid() && View() == map[]
    {
      this.cfg := cfg;
      clients := map[];
    }

    ghost function Repr(): set<object>
      reads this
    {
      {this} + (set ip | ip in clients :: clients[ip]) + (set ip | ip in clients :: clients[ip].limiter)
    }

    /** No two addresses share a client or a bucket. */
    ghost predicate Valid()
      reads this
    {
      && (forall ip :: ip in clients ==> clients[ip].limiter.cfg == cfg)
      && (forall ip, ip' :: ip in clients && ip' in clients && ip != ip' ==>
            clients[ip] != clients[ip'] && clients[ip].limiter != clients[ip'].limiter)
    }

    ghost function View(): Table
      reads Repr()
    {
      map ip | ip in clients :: Entry(clients[ip].limiter.View(), clients[ip].lastSeen)
    }

    method Get(ip: Str, now: real) returns (limiter: Limiter)
      requires Valid()
      modifies this, Repr()
      ensures Valid() && View() == GetEntry(cfg, old(View()), ip, now)
      ensures ip in clients && limiter == clients[ip].limiter
      ensures limiter in old(Repr()) || fresh(limiter)
    {
      if ip !in clients {
        limiter := Add(ip, now);
        return;
      }
      limiter := See(ip, now);
    }

    method Add(ip: Str, now: real) returns (limiter: Limiter)
      requires Valid() && ip !in clients
      modifies this
      ensures Valid() && View() == old(View())[ip := Entry(Full(cfg, now), now)]
      ensures ip in clients && limiter == clients[ip].limiter && fresh(limiter)
    {
      limiter := new Limiter(cfg, now);
      var c := new Client(limiter, now);
      clients := clients[ip := c];
    }

    method See(ip: Str, now: real) returns (limiter: Limiter)
      requires Valid() && ip in clients
      modifies clients[ip]
      ensures Valid() && View() == old(View())[ip := old(View())[ip].(lastSeen := now)]
      ensures limiter == clients[ip].limiter
    {
      var c := clients[ip];
      c.lastSeen := now;
      limiter := c.limiter;
    }

    /** One tick of the reaper. */
    method ReapIdle(now: real)
      requires Valid()
      modifies this
      ensures Valid() && View() == Reap(cfg, old(View()), now)
    {
      var todo := clients.Keys;
      while todo != {}
        invariant todo <= clients.Keys <= old(clients).Keys
        invariant forall ip :: ip in clients ==> clients[ip] == old(clients)[ip]
        invariant forall ip :: ip in old(clients) && ip !in todo ==>
                    (ip in clients <==> now - old(clients)[ip].lastSeen <= cfg.ttl)
        decreases todo
      {
        var ip :| ip in todo;
        if now - clients[ip].lastSeen > cfg.ttl {
          clients := clients - {ip};
        }
        todo := todo - {ip};
      }
    }

    /** The middleware's decision. */
    method Decide(ip: Str, now: real) returns (ok: bool)
      requires Valid()
      modifies this, Repr()
      ensures Valid() && (View(), ok) == Request(cfg, old(View()), ip, now)
    {
      var limiter := Get(ip, now);
      ok := AllowFor(ip, limiter, now);
    }

    /** Spending from the bucket of one address leaves every other entry as it was. */
    method AllowFor(ip: Str, limiter: Limiter, now: real) returns (ok: bool)
      requires Valid() && ip in clients && clients[ip].limiter == limiter
      modifies limiter
      ensures Valid() && ok == Allow(cfg, old(View())[ip].bucket, now).1
      ensures View() == old(View())[ip := old(View())[ip].(bucket := Allow(cfg, old(View())[ip].bucket, now).0)]
    {
      ok := limiter.AllowNow(now);
    }
  }
}

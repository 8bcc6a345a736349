/** config/grafana_cfg.go `Equal` and backend/datasource/instance_provider.go `NeedsUpdate`:
    the test that decides whether a cached instance may serve a request. */
module Freshness {
  import opened GoText

  /** A *GrafanaCfg: nil, or a config map. */
  datatype Cfg = NilCfg | Cfg(config: map<GoString, GoString>)

  /** What one call of Get carries. `key` is the text instanceKey builds; GetKey fails without settings. */
  datatype Request = Request(hasSettings: bool, key: GoString, cfg: Cfg, updated: int)

  /** Equal walks the receiver's map in whatever order the runtime picks. */
  method Equal(c: Cfg, c2: Cfg) returns (eq: bool)
    ensures eq <==> c == c2
  {
    if c.NilCfg? && c2.NilCfg? {
      return true;
    }
    if c.NilCfg? || c2.NilCfg? {
      return false;
    }
    if |c.config| != |c2.config| {
      return false;
    }
    var todo := c.config.Keys;
    while todo != {}
      invariant todo <= c.config.Keys
      invariant forall k :: k in c.config && k !in todo ==> k in c2.config && c.config[k] == c2.config[k]
    {
      var k :| k in todo;
      if k !in c2.config || c.config[k] != c2.config[k] {
        return false;
      }
      todo := todo - {k};
    }
    SameSizeSubmapIsEqual(c.config, c2.config);
    return true;
  }

  lemma SameSizeSubmapIsEqual(m: map<GoString, GoString>, n: map<GoString, GoString>)
    requires |m| == |n|
    requires forall k :: k in m ==> k in n && m[k] == n[k]
    ensures m == n
  {
    assert |m.Keys| == |n.Keys| && m.Keys <= n.Keys;
    SubsetOfSameSize(m.Keys, n.Keys);
  }

  lemma {:induction false} SubsetOfSameSize<T>(a: set<T>, b: set<T>)
    requires a <= b && |a| == |b|
    ensures a == b
    decreases |a|
  {
    if a == {} {
      assert b == {};
    } else {
      var x :| x in a;
      SubsetOfSameSize(a - {x}, b - {x});
      assert a == (a - {x}) + {x} && b == (b - {x}) + {x};
    }
  }

  /** The specification of the freshness test. */
  predicate Outdated(current: Request, cached: Request) {
    current.updated != cached.updated || current.cfg != cached.cfg
  }

  method NeedsUpdate(current: Request, cached: Request) returns (update: bool)
    ensures update <==> Outdated(current, cached)
    ensures update <==> current.updated != cached.updated || current.cfg != cached.cfg
  {
    var same := Equal(cached.cfg, current.cfg);
    var configUpdated := !same;
    var dsUpdated := current.updated != cached.updated;
    update := dsUpdated || configUpdated;
  }

  /** Being up to date is an equivalence on requests. */
  lemma UpToDateIsEquivalence(a: Request, b: Request, c: Request)
    ensures !Outdated(a, a)
    ensures Outdated(a, b) <==> Outdated(b, a)
    ensures !Outdated(a, b) && !Outdated(b, c) ==> !Outdated(a, c)
  {
  }
}

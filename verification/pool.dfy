/** The cache server pool: the comma-separated `servers` option parsed once
    at construction, and the per-pass choice of the first server that
    accepts a connection. */
module ServerPool {
  import opened Maybe
  import opened Text

  /** Each entry of `parts`, stripped; kept in order. */
  function StripAll(parts: seq<string>): (r: seq<string>)
    ensures |r| == |parts|
  {
    if parts == [] then [] else StripAll(parts[..|parts| - 1]) + [Strip(parts[|parts| - 1])]
  }

  lemma {:induction false} StripAllAt(parts: seq<string>, i: nat)
    requires i < |parts|
    ensures StripAll(parts)[i] == Strip(parts[i])
    decreases |parts|
  {
    if i < |parts| - 1 {
      StripAllAt(parts[..|parts| - 1], i);
    }
  }

  /** The pool the constructor builds from the configured `servers` string. */
  function ServerList(config: string): seq<string>
  {
    StripAll(Split(config, ','))
  }

  /** The pool has one entry per comma-separated segment of the
      configuration. */
  lemma {:induction false} ServerListLength(config: string)
    ensures |ServerList(config)| == |Split(config, ',')| == CountChar(config, ',') + 1
  {
    SplitProperties(config, ',');
  }

  /** Entry `i` of the pool is segment `i` of the configuration with its
      surrounding whitespace removed, so it holds no comma and neither
      starts nor ends with whitespace. */
  lemma ServerListSegments(config: string)
    ensures forall i :: 0 <= i < |ServerList(config)| ==>
              && i < |Split(config, ',')|
              && ServerList(config)[i] == Strip(Split(config, ',')[i])
              && ',' !in ServerList(config)[i]
              && Bare(ServerList(config)[i])
  {
    var parts := Split(config, ',');
    SplitProperties(config, ',');
    forall i | 0 <= i < |parts|
      ensures StripAll(parts)[i] == Strip(parts[i]) && ',' !in Strip(parts[i])
    {
      StripAllAt(parts, i);
      StripKeepsAbsence(parts[i], ',');
    }
  }

  /** An empty configuration still yields a pool of one empty address. */
  lemma EmptyConfig()
    ensures ServerList("") == [""]
  {
    assert Split("", ',') == [""];
    assert Strip("") == "";
  }

  /** The constructor's loop: append each stripped segment in turn. */
  method ParseServers(config: string) returns (servers: seq<string>)
    ensures servers == ServerList(config)
  {
    var parts := Split(config, ',');
    servers := [];
    for i := 0 to |parts|
      invariant servers == StripAll(parts[..i])
    {
      assert parts[..i + 1][..i] == parts[..i];
      servers := servers + [Strip(parts[i])];
    }
    assert parts[..|parts|] == parts;
  }

  /** The connection search from position `from` onwards: the index of the
      first server that accepts a connection, if any. */
  function FirstConnecting(pool: seq<string>, connects: string -> bool, from: nat): (r: Option<nat>)
    requires from <= |pool|
    ensures r.Some? ==>
              && from <= r.value < |pool|
              && connects(pool[r.value])
              && (forall j :: from <= j < r.value ==> !connects(pool[j]))
    ensures r.None? ==> forall j :: from <= j < |pool| ==> !connects(pool[j])
    decreases |pool| - from
  {
    if from == |pool| then None
    else if connects(pool[from]) then Some(from)
    else FirstConnecting(pool, connects, from + 1)
  }

  /** `get_memcache_client`: walk the pool in order and take the first server
      whose connect probe succeeds. When every probe fails there is no
      client. */
  function SelectServer(pool: seq<string>, connects: string -> bool): (r: Option<nat>)
    ensures r.Some? ==>
              && r.value < |pool|
              && connects(pool[r.value])
              && (forall j :: 0 <= j < r.value ==> !connects(pool[j]))
    ensures r.None? <==> forall j :: 0 <= j < |pool| ==> !connects(pool[j])
  {
    FirstConnecting(pool, connects, 0)
  }

  /** The addresses the search from `from` probes, in probe order (one log
      line and one `connect` each): it stops at the first that connects. */
  function ProbedFrom(pool: seq<string>, connects: string -> bool, from: nat): seq<string>
    requires from <= |pool|
    decreases |pool| - from
  {
    if from == |pool| then []
    else if connects(pool[from]) then [pool[from]]
    else [pool[from]] + ProbedFrom(pool, connects, from + 1)
  }

  /** The addresses `get_memcache_client` probes. */
  function Probed(pool: seq<string>, connects: string -> bool): seq<string>
  {
    ProbedFrom(pool, connects, 0)
  }

  /** The search from `from` probes exactly the addresses from `from` up to
      and including the one it chooses, or all of them when none connects. */
  lemma {:induction false} ProbedFromUpToChoice(pool: seq<string>, connects: string -> bool, from: nat)
    requires from <= |pool|
    ensures var c := FirstConnecting(pool, connects, from);
            && (c.Some? ==> ProbedFrom(pool, connects, from) == pool[from..c.value + 1])
            && (c.None? ==> ProbedFrom(pool, connects, from) == pool[from..])
    decreases |pool| - from
  {
    if from < |pool| && !connects(pool[from]) {
      ProbedFromUpToChoice(pool, connects, from + 1);
      assert pool[from..] == [pool[from]] + pool[from + 1..];
      var c := FirstConnecting(pool, connects, from + 1);
      if c.Some? {
        assert pool[from..c.value + 1] == [pool[from]] + pool[from + 1..c.value + 1];
      }
    }
  }

  /** `get_memcache_client` probes no server after the one it chooses, and
      every server when none connects. */
  lemma ProbesUpToChoice(pool: seq<string>, connects: string -> bool)
    ensures var c := SelectServer(pool, connects);
            && (c.Some? ==> Probed(pool, connects) == pool[..c.value + 1])
            && (c.None? ==> Probed(pool, connects) == pool)
  {
    ProbedFromUpToChoice(pool, connects, 0);
    assert pool[0..] == pool;
  }
}

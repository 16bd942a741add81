/** The cache of per-host server configurations and its least-recently-used order. */
module LeafCache {
  import opened ByteStrings
  import opened Text
  import opened Sequences

  // ------------------------------------------------------------------- host names

  function TrimBrackets(s: Bytes): Bytes {
    if s != [] && s[0] in {'[' as int, ']' as int} then TrimBrackets(s[1..])
    else if s != [] && s[|s| - 1] in {'[' as int, ']' as int} then TrimBrackets(s[..|s| - 1])
    else s
  }

  function TrimDots(s: Bytes): Bytes {
    if s != [] && s[|s| - 1] == '.' as int then TrimDots(s[..|s| - 1]) else s
  }

  /** The name a host is cached under, or none for a host that is empty once trimmed. */
  function Normalize(host: Bytes): Option<Bytes> {
    var trimmed := TrimDots(TrimBrackets(Trim(host)));
    if trimmed == [] then None else Some(LowerAll(trimmed))
  }

  // ---------------------------------------------------------------- what it does

  datatype Cache<C> = Cache(entries: map<Bytes, C>, order: seq<Bytes>)

  /** A request for a host's configuration, and what issuing one now would give, if it succeeds. */
  datatype Call<C> = Call(host: Bytes, issued: Option<C>)

  datatype Served<C> = Served(cache: Cache<C>, config: Option<C>)

  function Touch<C>(c: Cache<C>, host: Bytes): Cache<C> {
    c.(order := Without(c.order, host) + [host])
  }

  function Insert<C>(capacity: nat, c: Cache<C>, host: Bytes, config: C): Cache<C> {
    var kept := if |c.entries| == capacity && c.order != [] then Cache(c.entries - {c.order[0]}, c.order[1..]) else c;
    Cache(kept.entries[host := config], kept.order + [host])
  }

  function Serve<C>(capacity: nat, c: Cache<C>, call: Call<C>): Served<C> {
    match Normalize(call.host)
    case None => Served(c, None)
    case Some(host) =>
      if host in c.entries then Served(Touch(c, host), Some(c.entries[host]))
      else if call.issued.None? then Served(c, None)
      else Served(Insert(capacity, c, host, call.issued.value), call.issued)
  }

  function Run<C>(capacity: nat, calls: seq<Call<C>>): Cache<C> {
    if calls == [] then Cache(map[], [])
    else Serve(capacity, Run(capacity, calls[..|calls| - 1]), calls[|calls| - 1]).cache
  }

  // ------------------------------------------------------------- what it stands for

  /** The hosts that were served, in order. */
  function Uses<C>(capacity: nat, calls: seq<Call<C>>): seq<Bytes> {
    if calls == [] then []
    else
      var before := calls[..|calls| - 1];
      var call := calls[|calls| - 1];
      if Serve(capacity, Run(capacity, before), call).config.Some? then Uses(capacity, before) + [Normalize(call.host).value]
      else Uses(capacity, before)
  }

  /** Index of the last use of a host. */
  function LastUse(uses: seq<Bytes>, host: Bytes): (i: nat)
    requires host in uses
    ensures i < |uses| && uses[i] == host && host !in uses[i + 1..]
  {
    if uses[|uses| - 1] == host then |uses| - 1
    else
      var i := LastUse(uses[..|uses| - 1], host);
      assert uses[i + 1..] == uses[..|uses| - 1][i + 1..] + [uses[|uses| - 1]];
      i
  }

  /** The hosts used since this one was. */
  function UsedSince(uses: seq<Bytes>, host: Bytes): set<Bytes>
    requires host in uses
  {
    Elements(uses[LastUse(uses, host) + 1..])
  }

  /** All hosts, each once, by last use. */
  function Recent(uses: seq<Bytes>): seq<Bytes> {
    if uses == [] then []
    else Without(Recent(uses[..|uses| - 1]), uses[|uses| - 1]) + [uses[|uses| - 1]]
  }

  // ------------------------------------------------------------------- recency order

  lemma {:induction false} RecentHolds(uses: seq<Bytes>)
    ensures Distinct(Recent(uses)) && Elements(Recent(uses)) == Elements(uses)
    decreases |uses|
  {
    hide Distinct, Without;
    if uses != [] {
      var before, last := uses[..|uses| - 1], uses[|uses| - 1];
      var kept := Without(Recent(before), last);
      RecentHolds(before);
      WithoutDistinct(Recent(before), last);
      WithoutElements(Recent(before), last);
      DistinctAppend(kept, [last]);
      OneIsDistinct(last);
      ElementsAppend(kept, [last]);
      ElementsAppend(before, [last]);
      assert uses == before + [last];
    } else {
      NoneDistinct();
    }
  }

  lemma OneIsDistinct(x: Bytes)
    ensures Distinct([x])
  {
  }

  lemma NoneDistinct()
    ensures Distinct<Bytes>([])
  {
  }

  lemma ElementsAppend(s: seq<Bytes>, t: seq<Bytes>)
    ensures Elements(s + t) == Elements(s) + Elements(t)
  {
  }

  /** In the recency order, what stands after a host is what was used since. */
  lemma {:induction false} RecentSplits(uses: seq<Bytes>, host: Bytes) returns (front: seq<Bytes>, back: seq<Bytes>)
    requires host in uses
    ensures Recent(uses) == front + ([host] + back)
    ensures Elements(back) == UsedSince(uses, host)
    decreases |uses|
  {
    hide Without, Elements;
    var before, last := uses[..|uses| - 1], uses[|uses| - 1];
    assert uses == before + [last];
    if host == last {
      front, back := Without(Recent(before), last), [];
      assert [host] + back == [host];
      assert uses[|uses|..] == [];
    } else {
      var f, b := RecentSplits(before, host);
      WithoutAppend(f, [host] + b, last);
      WithoutAppend([host], b, last);
      WithoutElements([host], last);
      WithoutElements(b, last);
      NotAnother(host, last);
      front, back := Without(f, last), Without(b, last) + [last];
      assert Recent(uses) == front + ([host] + Without(b, last)) + [last];
      assert front + ([host] + Without(b, last)) + [last] == front + ([host] + back);
      ElementsAppend(Without(b, last), [last]);
      var at := LastUse(before, host);
      assert uses[at + 1..] == before[at + 1..] + [last];
      ElementsAppend(before[at + 1..], [last]);
      Readd(b, last);
    }
  }

  lemma NotAnother(host: Bytes, last: Bytes)
    ensures host != last ==> last !in [host]
  {
  }

  lemma Readd(b: seq<Bytes>, x: Bytes)
    ensures Elements(b) - {x} + Elements([x]) == Elements(b) + Elements([x])
  {
  }

  // --------------------------------------------------------------- refinement of LRU

  /** The queue is the tail of the recency order, and the table holds exactly the queued hosts. */
  predicate IsLru<C>(capacity: nat, c: Cache<C>, uses: seq<Bytes>) {
    c.order == LastOf(Recent(uses), capacity) && c.entries.Keys == Elements(c.order)
  }

  /** The part of the recency order that has left the cache. */
  function Gone(capacity: nat, uses: seq<Bytes>): seq<Bytes> {
    Recent(uses)[..Monus(|Recent(uses)|, capacity)]
  }

  lemma SizesAgree<C>(capacity: nat, c: Cache<C>, uses: seq<Bytes>)
    requires IsLru(capacity, c, uses)
    ensures Recent(uses) == Gone(capacity, uses) + c.order
    ensures Distinct(c.order) && |c.entries| == |c.order|
    ensures Elements(Gone(capacity, uses)) !! c.entries.Keys
  {
    hide Recent, Distinct, Elements;
    RecentHolds(uses);
    assert Recent(uses) == Gone(capacity, uses) + c.order;
    DistinctAppend(Gone(capacity, uses), c.order);
    DistinctSize(c.order);
    assert |c.entries| == |c.entries.Keys|;
  }

  lemma UseOnce(uses: seq<Bytes>, host: Bytes)
    ensures Recent(uses + [host]) == Without(Recent(uses), host) + [host]
  {
    assert (uses + [host])[..|uses + [host]| - 1] == uses;
  }

  lemma InElements(s: seq<Bytes>, x: Bytes)
    ensures x in s <==> x in Elements(s)
  {
  }

  lemma HitIsLru<C>(capacity: nat, c: Cache<C>, uses: seq<Bytes>, host: Bytes)
    requires IsLru(capacity, c, uses) && host in c.entries
    ensures IsLru(capacity, Touch(c, host), uses + [host])
  {
    hide Recent, Without, Distinct, Elements;
    UseOnce(uses, host);
    SizesAgree(capacity, c, uses);
    var gone := Gone(capacity, uses);
    InElements(gone, host);
    WithoutAppend(gone, c.order, host);
    WithoutElements(gone, host);
    WithoutElements(c.order, host);
    WithoutDistinct(c.order, host);
    DistinctSize(Without(c.order, host));
    DistinctSize(c.order);
    var moved := Without(c.order, host) + [host];
    assert gone + Without(c.order, host) + [host] == gone + moved;
    ElementsAppend(Without(c.order, host), [host]);
    OneElement(host);
    KeepTail(gone, moved, capacity);
  }

  lemma KeepTail(gone: seq<Bytes>, kept: seq<Bytes>, n: nat)
    requires |gone| == Monus(|gone| + |kept|, n)
    ensures LastOf(gone + kept, n) == kept
  {
  }

  lemma OneElement(x: Bytes)
    ensures Elements([x]) == {x}
  {
  }

  lemma MissIsLru<C>(capacity: nat, c: Cache<C>, uses: seq<Bytes>, host: Bytes, config: C)
    requires capacity > 0 && IsLru(capacity, c, uses) && host !in c.entries
    ensures IsLru(capacity, Insert(capacity, c, host, config), uses + [host])
  {
    hide Recent, Without, Distinct, Elements;
    UseOnce(uses, host);
    SizesAgree(capacity, c, uses);
    var gone := Gone(capacity, uses);
    InElements(c.order, host);
    WithoutAppend(gone, c.order, host);
    WithoutElements(c.order, host);
    OneElement(host);
    var kept := Without(gone, host);
    assert Recent(uses + [host]) == kept + c.order + [host];
    if |c.order| == capacity {
      TailElements(c.order);
      ElementsAppend(c.order[1..], [host]);
      Shift(kept, c.order, host);
    } else {
      assert gone == [];
      NothingWithout(host);
      ElementsAppend(c.order, [host]);
      Grow(c.order, host, capacity);
    }
  }

  lemma NothingWithout(host: Bytes)
    ensures Without([], host) == []
  {
  }

  lemma Shift(kept: seq<Bytes>, order: seq<Bytes>, host: Bytes)
    requires order != []
    ensures LastOf(kept + order + [host], |order|) == order[1..] + [host]
  {
    assert kept + order + [host] == (kept + [order[0]]) + (order[1..] + [host]);
  }

  lemma Grow(order: seq<Bytes>, host: Bytes, capacity: nat)
    requires |order| < capacity
    ensures LastOf([] + order + [host], capacity) == order + [host]
  {
    assert [] + order == order;
  }

  lemma TailElements(s: seq<Bytes>)
    requires s != [] && Distinct(s)
    ensures Elements(s[1..]) == Elements(s) - {s[0]}
  {
    assert s == [s[0]] + s[1..];
  }

  /** Over any calls, the queue is the last `capacity` distinct hosts served, ordered by last use. */
  lemma {:induction false} CacheIsLru<C>(capacity: nat, calls: seq<Call<C>>)
    requires capacity > 0
    ensures IsLru(capacity, Run(capacity, calls), Uses(capacity, calls))
    decreases |calls|
  {
    hide Normalize, Recent, Touch, Insert;
    if calls == [] {
      NoneRecent();
    } else {
      var before, call := calls[..|calls| - 1], calls[|calls| - 1];
      var c, uses := Run(capacity, before), Uses(capacity, before);
      CacheIsLru(capacity, before);
      if Normalize(call.host).Some? {
        var host := Normalize(call.host).value;
        if host in c.entries {
          HitIsLru(capacity, c, uses, host);
        } else if call.issued.Some? {
          MissIsLru(capacity, c, uses, host, call.issued.value);
        }
      }
    }
  }

  lemma NoneRecent()
    ensures Recent([]) == []
  {
  }

  /** A host is cached exactly when it was served and fewer than `capacity` other hosts were served
      since; the queue never repeats a host and never outgrows the capacity. */
  lemma CachedIffRecentlyUsed<C>(capacity: nat, calls: seq<Call<C>>, host: Bytes)
    requires capacity > 0
    ensures var c := Run(capacity, calls);
            var uses := Uses(capacity, calls);
            && Distinct(c.order) && |c.entries| == |c.order| <= capacity
            && (host in c.entries <==> host in uses && |UsedSince(uses, host)| < capacity)
  {
    hide Run, Uses, Recent, UsedSince, Distinct, Elements;
    var c, uses := Run(capacity, calls), Uses(capacity, calls);
    CacheIsLru(capacity, calls);
    SizesAgree(capacity, c, uses);
    InElements(c.order, host);
    InElements(uses, host);
    RecentHolds(uses);
    if host in uses {
      var front, back := RecentSplits(uses, host);
      DistinctAppend(front, [host] + back);
      DistinctAppend([host], back);
      DistinctSize(back);
      SplitPosition(front, host, back, capacity);
    } else {
      InElements(Recent(uses), host);
      assert host in c.order ==> host in Recent(uses);
    }
  }

  /** With no repetition, a suffix holds an element exactly when it reaches back to it. */
  lemma SplitPosition(front: seq<Bytes>, host: Bytes, back: seq<Bytes>, n: nat)
    requires Distinct(front + ([host] + back))
    ensures host in LastOf(front + ([host] + back), n) <==> |back| < n
  {
    var all := front + ([host] + back);
    assert all[|front|] == host;
    var skipped := Monus(|all|, n);
    if |back| < n {
      assert LastOf(all, n)[|front| - skipped] == host;
    } else if host in LastOf(all, n) {
      var i :| 0 <= i < |LastOf(all, n)| && LastOf(all, n)[i] == host;
      DistinctAt(all, |front|, skipped + i);
    }
  }

  // -------------------------------------------------------------------- what is served

  /** The configuration issued last for a host. */
  function LastIssued<C>(capacity: nat, calls: seq<Call<C>>, host: Bytes): Option<C> {
    if calls == [] then None
    else
      var before := calls[..|calls| - 1];
      var call := calls[|calls| - 1];
      if Normalize(call.host) == Some(host) && host !in Run(capacity, before).entries && call.issued.Some? then call.issued
      else LastIssued(capacity, before, host)
  }

  /** A cached host is served the configuration issued last for it. */
  lemma {:induction false} ServesTheIssued<C>(capacity: nat, calls: seq<Call<C>>, host: Bytes)
    ensures host in Run(capacity, calls).entries ==> LastIssued(capacity, calls, host) == Some(Run(capacity, calls).entries[host])
    decreases |calls|
  {
    hide Normalize, Without;
    if calls != [] { ServesTheIssued(capacity, calls[..|calls| - 1], host); }
  }

  /** A call that ends in an error leaves the cache as it was; any other call leaves its host cached,
      most recent, with the configuration it returned. */
  lemma CallsServe<C>(capacity: nat, c: Cache<C>, call: Call<C>)
    ensures var r := Serve(capacity, c, call);
            var host := Normalize(call.host);
            && (r.config.None? <==> host.None? || (host.value !in c.entries && call.issued.None?))
            && (r.config.None? ==> r.cache == c)
            && (r.config.Some? ==>
                  && r.cache.order != [] && r.cache.order[|r.cache.order| - 1] == host.value
                  && host.value in r.cache.entries && r.cache.entries[host.value] == r.config.value)
  {
    hide Normalize, Without;
  }

  // ------------------------------------------------------------------- the cache itself

  class Leaves<C> {
    const capacity: nat
    var entries: map<Bytes, C>
    var order: seq<Bytes>

    function Contents(): Cache<C>
      reads this
    {
      Cache(entries, order)
    }

    constructor (capacity: nat)
      ensures this.capacity == capacity && Contents() == Run(capacity, [])
    {
      this.capacity, entries, order := capacity, map[], [];
    }

    method Get(host: Bytes) returns (config: Option<C>)
      modifies this`order
      ensures config == if host in entries then Some(entries[host]) else None
      ensures Contents() == if host in entries then Touch(old(Contents()), host) else old(Contents())
    {
      if host !in entries {
        return None;
      }
      var kept: seq<Bytes> := [];
      for i := 0 to |order|
        invariant Without(order, host) == kept + Without(order[i..], host)
        invariant order == old(order)
      {
        assert order[i..][0] == order[i] && order[i..][1..] == order[i + 1..];
        if order[i] != host {
          kept := kept + [order[i]];
        }
      }
      assert order[|order|..] == [];
      order := kept + [host];
      return Some(entries[host]);
    }

    method Put(host: Bytes, config: C)
      modifies this
      ensures Contents() == Insert(capacity, old(Contents()), host, config)
    {
      if |entries| == capacity && order != [] {
        var oldest := order[0];
        order := order[1..];
        entries := entries - {oldest};
      }
      order := order + [host];
      entries := entries[host := config];
    }

    /** A request for a host, with the outcome of issuing a certificate should one be needed. */
    method ServerConfig(host: Bytes, issued: Option<C>) returns (config: Option<C>)
      modifies this
      ensures Served(Contents(), config) == Serve(capacity, old(Contents()), Call(host, issued))
    {
      hide Touch, Insert, Normalize;
      var name := Normalize(host);
      if name.None? {
        return None;
      }
      config := Get(name.value);
      if config.Some? {
        return;
      }
      if issued.None? {
        return None;
      }
      Put(name.value, issued.value);
      return issued;
    }
  }
}

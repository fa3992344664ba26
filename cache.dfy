/**
 * The function-table cache of client/uftrace_dynamic_client/communicator.py.
 * The HTTP session is abstracted: a GET is its response, a PUT is a function
 * from the records sent to the response received.
 */
module Communication {
  import opened Wrappers

  /** One `{"name": ..., "active": ...}` object of a request or response body. */
  datatype Record = Record(name: string, active: bool)

  /**
   * What `__request_get_function_list` / `__request_put_function_list` see of
   * a request: an exception or non-success status, or the `functions` list of
   * the decoded body.
   */
  datatype Response = Failed | Functions(records: seq<Record>)

  // ---------------------------------------------------------------------------
  // A Python dict from function name to status, in insertion order

  datatype Dict = Dict(keys: seq<string>, vals: map<string, bool>)
  {
    ghost predicate Valid()
    {
      && (forall i, j :: 0 <= i < j < |keys| ==> keys[i] != keys[j])
      && (forall k :: k in vals <==> k in keys)
    }

    /** `d[k] = v`: an existing key keeps its place, a new one goes last. */
    function Put(k: string, v: bool): (d: Dict)
      requires Valid()
      ensures d.Valid()
      ensures d.vals == vals[k := v]
      ensures d.keys == if k in vals then keys else keys + [k]
    {
      if k in vals then Dict(keys, vals[k := v]) else Dict(keys + [k], vals[k := v])
    }
  }

  const EmptyDict := Dict([], map[])

  /** `__write_to_cache`: every record is stored in turn, over what is already there. */
  function Merge(d: Dict, recs: seq<Record>): Dict
    requires d.Valid()
    decreases |recs|
  {
    if recs == [] then d else Merge(d.Put(recs[0].name, recs[0].active), recs[1..])
  }

  /** The status the last record named `k` gives it, if any. */
  function LastValue(recs: seq<Record>, k: string): Option<bool>
  {
    if recs == [] then None
    else if recs[|recs| - 1].name == k then Some(recs[|recs| - 1].active)
    else LastValue(recs[..|recs| - 1], k)
  }

  lemma {:induction false} MergeValid(d: Dict, recs: seq<Record>)
    requires d.Valid()
    ensures Merge(d, recs).Valid()
    decreases |recs|
  {
    if recs != [] {
      MergeValid(d.Put(recs[0].name, recs[0].active), recs[1..]);
    }
  }

  lemma {:induction false} MergeSnoc(d: Dict, recs: seq<Record>, r: Record)
    requires d.Valid()
    ensures Merge(d, recs).Valid()
    ensures Merge(d, recs + [r]) == Merge(d, recs).Put(r.name, r.active)
    decreases |recs|
  {
    MergeValid(d, recs);
    if recs == [] {
      assert recs + [r] == [r];
    } else {
      assert (recs + [r])[1..] == recs[1..] + [r];
      MergeSnoc(d.Put(recs[0].name, recs[0].active), recs[1..], r);
    }
  }

  /** A status is given to `k` by the records exactly when some record names it. */
  lemma {:induction false} LastValueNamed(recs: seq<Record>, k: string)
    ensures LastValue(recs, k).Some? <==> exists i :: 0 <= i < |recs| && recs[i].name == k
    decreases |recs|
  {
    if recs != [] && recs[|recs| - 1].name != k {
      var init := recs[..|recs| - 1];
      LastValueNamed(init, k);
      if exists i :: 0 <= i < |recs| && recs[i].name == k {
        var i :| 0 <= i < |recs| && recs[i].name == k;
        assert init[i].name == k;
      }
    }
  }

  /**
   * The merge never removes a key and adds exactly the names it was given;
   * each name ends with the status of the last record naming it, and the
   * other entries are untouched.
   */
  lemma {:induction false} MergeEntries(d: Dict, recs: seq<Record>)
    requires d.Valid()
    ensures var m := Merge(d, recs);
      forall k ::
        && (k in m.vals <==> k in d.vals || LastValue(recs, k).Some?)
        && (k in m.vals ==> m.vals[k] == if LastValue(recs, k).Some? then LastValue(recs, k).value else d.vals[k])
    decreases |recs|
  {
    if recs != [] {
      var init := recs[..|recs| - 1];
      var r := recs[|recs| - 1];
      assert recs == init + [r];
      MergeEntries(d, init);
      MergeSnoc(d, init, r);
    }
  }

  /** The merge keeps the existing keys first, in their order. */
  lemma {:induction false} MergeKeepsOrder(d: Dict, recs: seq<Record>)
    requires d.Valid()
    ensures |d.keys| <= |Merge(d, recs).keys| && Merge(d, recs).keys[..|d.keys|] == d.keys
    decreases |recs|
  {
    if recs != [] {
      var d' := d.Put(recs[0].name, recs[0].active);
      MergeKeepsOrder(d', recs[1..]);
      assert d'.keys[..|d.keys|] == d.keys;
    }
  }

  /** `__read_from_cache`: one record per entry, in the dict's order. */
  function Records(d: Dict): seq<Record>
    requires d.Valid()
  {
    seq(|d.keys|, i requires 0 <= i < |d.keys| => Record(d.keys[i], d.vals[d.keys[i]]))
  }

  /** Exactly one record per cache entry, carrying that entry's status. */
  lemma RecordsOnePerEntry(d: Dict)
    requires d.Valid()
    ensures var rs := Records(d);
      && |rs| == |d.keys|
      && (forall i :: 0 <= i < |rs| ==> rs[i].name == d.keys[i] && rs[i].active == d.vals[rs[i].name])
      && (forall k :: k in d.vals ==> exists i :: 0 <= i < |rs| && rs[i].name == k)
      && (forall i, j :: 0 <= i < j < |rs| ==> rs[i].name != rs[j].name)
  {
    var rs := Records(d);
    forall k | k in d.vals ensures exists i :: 0 <= i < |rs| && rs[i].name == k {
      var i :| 0 <= i < |d.keys| && d.keys[i] == k;
      assert rs[i].name == k;
    }
  }

  /** Storing records that agree with the cache changes nothing. */
  lemma {:induction false} MergeAgreeing(d: Dict, recs: seq<Record>)
    requires d.Valid()
    requires forall i :: 0 <= i < |recs| ==> recs[i].name in d.vals && d.vals[recs[i].name] == recs[i].active
    ensures Merge(d, recs) == d
    decreases |recs|
  {
    if recs != [] {
      var r := recs[0];
      assert d.vals[r.name := r.active] == d.vals;
      assert d.Put(r.name, r.active) == d;
      MergeAgreeing(d, recs[1..]);
    }
  }

  /** Writing back what was read leaves the cache as it was. */
  lemma ReadWriteRoundTrip(d: Dict)
    requires d.Valid()
    ensures Merge(d, Records(d)) == d
  {
    MergeAgreeing(d, Records(d));
  }

  /** How many of the setter's entries, from the first, name a cached function. */
  function KnownPrefix(d: Dict, funcs: seq<Record>): (n: nat)
    ensures n <= |funcs|
    ensures forall i :: 0 <= i < n ==> funcs[i].name in d.vals
    ensures n < |funcs| ==> funcs[n].name !in d.vals
  {
    if funcs == [] || funcs[0].name !in d.vals then 0 else 1 + KnownPrefix(d, funcs[1..])
  }

  /** The cache after the setter's loop, and whether the loop ran to the end. */
  datatype Update = Update(dict: Dict, ok: bool)

  /** The setter's loop: store each entry in turn, stop at the first unknown name. */
  function UpdateKnown(d: Dict, funcs: seq<Record>): (u: Update)
    requires d.Valid()
    ensures u.dict.Valid()
    decreases |funcs|
  {
    if funcs == [] then Update(d, true)
    else if funcs[0].name in d.vals then UpdateKnown(d.Put(funcs[0].name, funcs[0].active), funcs[1..])
    else Update(d, false)
  }

  /**
   * The loop is not all-or-nothing: it applies the entries before the first
   * unknown name and stops there, and it never adds or removes a key.
   */
  lemma {:induction false} UpdateKnownSemantics(d: Dict, funcs: seq<Record>)
    requires d.Valid()
    ensures var u := UpdateKnown(d, funcs);
      && u.ok == (KnownPrefix(d, funcs) == |funcs|)
      && u.dict == Merge(d, funcs[..KnownPrefix(d, funcs)])
      && u.dict.keys == d.keys
      && u.dict.vals.Keys == d.vals.Keys
    decreases |funcs|
  {
    if funcs != [] && funcs[0].name in d.vals {
      var d' := d.Put(funcs[0].name, funcs[0].active);
      UpdateKnownSemantics(d', funcs[1..]);
      assert KnownPrefix(d', funcs[1..]) == KnownPrefix(d, funcs[1..]) by {
        KnownPrefixSameKeys(d, d', funcs[1..]);
      }
      var n := KnownPrefix(d, funcs);
      assert funcs[..n][0] == funcs[0] && funcs[..n][1..] == funcs[1..][..n - 1];
    } else {
      assert funcs[..0] == [];
    }
  }

  lemma {:induction false} KnownPrefixSameKeys(d: Dict, e: Dict, funcs: seq<Record>)
    requires d.vals.Keys == e.vals.Keys
    ensures KnownPrefix(d, funcs) == KnownPrefix(e, funcs)
    decreases |funcs|
  {
    if funcs != [] {
      assert funcs[0].name in d.vals <==> funcs[0].name in e.vals;
      KnownPrefixSameKeys(d, e, funcs[1..]);
    }
  }

  // ---------------------------------------------------------------------------
  // The URL

  function DigitChar(d: nat): (c: char)
    requires d < 10
    ensures '0' <= c <= '9'
  {
    (d + '0' as int) as char
  }

  /** Python's `%d` of a non-negative integer. */
  function Decimal(n: nat): (s: string)
    ensures |s| >= 1 && forall i :: 0 <= i < |s| ==> '0' <= s[i] <= '9'
    ensures |s| > 1 ==> s[0] != '0'
  {
    if n < 10 then [DigitChar(n)] else Decimal(n / 10) + [DigitChar(n % 10)]
  }

  /** The number a string of decimal digits stands for. */
  function DecimalValue(s: string): nat
    requires forall i :: 0 <= i < |s| ==> '0' <= s[i] <= '9'
  {
    if s == [] then 0 else 10 * DecimalValue(s[..|s| - 1]) + (s[|s| - 1] as int - '0' as int)
  }

  lemma {:induction false} DecimalRoundTrip(n: nat)
    ensures DecimalValue(Decimal(n)) == n
  {
    if n >= 10 {
      DecimalRoundTrip(n / 10);
      var s := Decimal(n);
      assert s[..|s| - 1] == Decimal(n / 10);
    }
  }

  const UrlHead := "http://127.0.0.1:"
  const UrlTail := "/instrumentation"

  /** `URL_TEMPLATE % port`. */
  function Url(port: nat): string
  {
    UrlHead + Decimal(port) + UrlTail
  }

  /** Distinct ports give distinct URLs: the port can be read back from the URL. */
  lemma UrlDeterminesPort(p: nat, q: nat)
    requires Url(p) == Url(q)
    ensures p == q
  {
    var u := Url(p);
    assert u[|UrlHead|..|u| - |UrlTail|] == Decimal(p);
    assert Url(q)[|UrlHead|..|Url(q)| - |UrlTail|] == Decimal(q);
    DecimalRoundTrip(p);
    DecimalRoundTrip(q);
  }

  // ---------------------------------------------------------------------------
  // The objects

  /** The dict object held as `__cache`, which the caller of the getter shares. */
  class FunctionTable {
    var keys: seq<string>
    var active: map<string, bool>

    function Contents(): Dict
      reads this
    {
      Dict(keys, active)
    }

    ghost predicate Valid()
      reads this
    {
      Contents().Valid()
    }

    /** `{}` */
    constructor ()
      ensures Contents() == EmptyDict && Valid()
    {
      keys, active := [], map[];
    }

    /** `table[name] = value` */
    method Store(name: string, value: bool)
      requires Valid()
      modifies this
      ensures Valid()
      ensures Contents() == old(Contents()).Put(name, value)
    {
      if name !in active {
        keys := keys + [name];
      }
      active := active[name := value];
    }
  }

  datatype CommunicatorError =
    | InvalidPort        // ValueError from connect
    | NotConnected       // CommunicatorException('Not connected')
    | NotInProcess       // CommunicatorException('Function not in the process')
    | RequestFailed      // CommunicatorException raised for a failed GET or PUT

  class Communicator {
    /** Whether `__session` holds a session object; `disconnect` never resets it. */
    var session: bool
    var url: Option<string>
    var cache: FunctionTable

    ghost predicate Valid()
      reads this, cache
    {
      && cache.Valid()
      && (url.Some? ==> session)
      && (!session ==> url.None? && cache.Contents() == EmptyDict)
    }

    constructor ()
      ensures Valid() && fresh(cache)
      ensures !session && url.None? && cache.Contents() == EmptyDict
    {
      session := false;
      url := None;
      cache := new FunctionTable();
    }

    /** `status()` */
    method Status() returns (connected: bool)
      ensures connected == session
    {
      connected := session;
    }

    /** `__check_connected()` */
    method CheckConnected() returns (res: Outcome<CommunicatorError>)
      ensures res == if session then Pass else Fail(NotConnected)
    {
      if !session {
        return Fail(NotConnected);
      }
      return Pass;
    }

    /**
     * `disconnect()`: with a session, closes it, forgets the URL and starts a
     * new, empty cache object, but `__session` stays set; otherwise nothing.
     * The old cache object itself is not touched.
     */
    method Disconnect()
      requires Valid()
      modifies this
      ensures Valid()
      ensures session == old(session)
      ensures old(session) ==> url.None? && fresh(cache) && cache.Contents() == EmptyDict
      ensures !old(session) ==> url == old(url) && cache == old(cache)
    {
      if session {
        url := None;
        cache := new FunctionTable();
      }
    }

    /** `__write_to_cache(response)` */
    method WriteToCache(recs: seq<Record>)
      requires Valid() && session
      modifies cache
      ensures Valid()
      ensures cache.Contents() == Merge(old(cache.Contents()), recs)
    {
      var i := 0;
      while i < |recs|
        invariant 0 <= i <= |recs|
        invariant Valid()
        invariant Merge(old(cache.Contents()), recs) == Merge(cache.Contents(), recs[i..])
      {
        assert recs[i..][0] == recs[i] && recs[i..][1..] == recs[i + 1..];
        cache.Store(recs[i].name, recs[i].active);
        i := i + 1;
      }
    }

    /** `__read_from_cache()`, with the body as records rather than JSON text. */
    method ReadFromCache() returns (data: seq<Record>)
      requires Valid()
      ensures data == Records(cache.Contents())
    {
      data := [];
      var i := 0;
      while i < |cache.keys|
        invariant 0 <= i <= |cache.keys|
        invariant data == Records(cache.Contents())[..i]
      {
        var f := cache.keys[i];
        data := data + [Record(f, cache.active[f])];
        i := i + 1;
      }
    }

    /** `__request_get_function_list()` with `get` as the server's answer. */
    method RequestGet(get: Response) returns (res: Outcome<CommunicatorError>)
      requires Valid()
      modifies cache
      ensures Valid()
      ensures res == if session && url.Some? && get.Functions? then Pass else Fail(RequestFailed)
      ensures cache.Contents() == if res.Pass? then Merge(old(cache.Contents()), get.records) else old(cache.Contents())
    {
      if !session || url.None? || get.Failed? {
        return Fail(RequestFailed);
      }
      WriteToCache(get.records);
      return Pass;
    }

    /**
     * `connect(port)`: disconnect, check the port, open a session on
     * `Url(port)` and fetch the function list.
     */
    method Connect(port: int, get: Response) returns (res: Outcome<CommunicatorError>)
      requires Valid()
      modifies this, cache
      ensures Valid()
      ensures old(session) ==> fresh(cache) && old(cache).Contents() == old(cache.Contents())
      ensures !old(session) ==> cache == old(cache)
      ensures !(0 <= port <= 65535) ==>
        && res == Fail(InvalidPort)
        && session == old(session)
        && url.None?
        && cache.Contents() == EmptyDict
      ensures 0 <= port <= 65535 ==>
        && session
        && url == Some(Url(port))
        && res == (if get.Functions? then Pass else Fail(RequestFailed))
        && cache.Contents() == (if get.Functions? then Merge(EmptyDict, get.records) else EmptyDict)
    {
      Disconnect();
      if port < 0 || port > 65535 {
        return Fail(InvalidPort);
      }
      session := true;
      url := Some(Url(port));
      res := RequestGet(get);
    }

    /** `refresh()`: the GET merges into the cache object in place. */
    method Refresh(get: Response) returns (res: Outcome<CommunicatorError>)
      requires Valid()
      modifies cache
      ensures Valid()
      ensures res == if session && url.Some? && get.Functions? then Pass else Fail(RequestFailed)
      ensures cache.Contents() == if res.Pass? then Merge(old(cache.Contents()), get.records) else old(cache.Contents())
      ensures old(cache.Contents().vals.Keys) <= cache.Contents().vals.Keys
    {
      res := RequestGet(get);
      if res.Pass? {
        MergeEntries(old(cache.Contents()), get.records);
      }
    }

    /** The `function_list` getter: the cache object itself, which the caller then shares. */
    method GetFunctionList() returns (r: Result<FunctionTable, CommunicatorError>)
      ensures r == if session then Success(cache) else Failure(NotConnected)
    {
      if !session {
        return Failure(NotConnected);
      }
      return Success(cache);
    }

    /**
     * The `function_list` setter: store each entry of `funcs` (a dict, in
     * iteration order) into the cache in place, raising at the first unknown
     * name; then PUT the whole cache and merge the answer.
     */
    method SetFunctionList(funcs: seq<Record>, put: seq<Record> -> Response) returns (res: Outcome<CommunicatorError>)
      requires Valid()
      modifies cache
      ensures Valid()
      ensures !session ==> res == Fail(NotConnected) && cache.Contents() == old(cache.Contents())
      ensures session ==>
        var u := UpdateKnown(old(cache.Contents()), funcs);
        if !u.ok then
          res == Fail(NotInProcess) && cache.Contents() == u.dict
        else if url.None? || put(Records(u.dict)).Failed? then
          res == Fail(RequestFailed) && cache.Contents() == u.dict
        else
          res == Pass && cache.Contents() == Merge(u.dict, put(Records(u.dict)).records)
      ensures old(cache.Contents().vals.Keys) <= cache.Contents().vals.Keys
    {
      UpdateKnownSemantics(old(cache.Contents()), funcs);
      res := CheckConnected();
      if res.Fail? {
        return;
      }
      var ok := StoreKnown(funcs);
      if !ok {
        return Fail(NotInProcess);
      }
      ghost var updated := cache.Contents();
      res := RequestPut(put);
      if res.Pass? {
        MergeEntries(updated, put(Records(updated)).records);
      }
    }

    /** The setter's loop: store each entry in turn, stopping at the first name the cache does not hold. */
    method StoreKnown(funcs: seq<Record>) returns (ok: bool)
      requires Valid() && session
      modifies cache
      ensures Valid()
      ensures Update(cache.Contents(), ok) == UpdateKnown(old(cache.Contents()), funcs)
    {
      var i := 0;
      while i < |funcs|
        invariant 0 <= i <= |funcs|
        invariant Valid()
        invariant UpdateKnown(old(cache.Contents()), funcs) == UpdateKnown(cache.Contents(), funcs[i..])
      {
        assert funcs[i..][0] == funcs[i] && funcs[i..][1..] == funcs[i + 1..];
        if funcs[i].name !in cache.active {
          return false;
        }
        cache.Store(funcs[i].name, funcs[i].active);
        i := i + 1;
      }
      return true;
    }

    /** `__request_put_function_list()` with `put` as the server's answer to the body sent. */
    method RequestPut(put: seq<Record> -> Response) returns (res: Outcome<CommunicatorError>)
      requires Valid()
      modifies cache
      ensures Valid()
      ensures !session ==> res == Fail(NotConnected) && cache.Contents() == old(cache.Contents())
      ensures session ==>
        var answer := put(Records(old(cache.Contents())));
        if url.None? || answer.Failed? then
          res == Fail(RequestFailed) && cache.Contents() == old(cache.Contents())
        else
          res == Pass && cache.Contents() == Merge(old(cache.Contents()), answer.records)
    {
      res := CheckConnected();
      if res.Fail? {
        return;
      }
      if url.None? {
        return Fail(RequestFailed);
      }
      var body := ReadFromCache();
      var answer := put(body);
      if answer.Failed? {
        return Fail(RequestFailed);
      }
      WriteToCache(answer.records);
      return Pass;
    }
  }
}

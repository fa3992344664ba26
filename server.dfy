/**
 * The request core of server/dynamic-server.c: byte-string equality, the
 * routing of an HTTP event, the text of the function list response, and the
 * in-order application of a set request to the function table.
 */
module InstrumentationServer {
  import opened Wrappers

  /** A symbol of the traced program and whether its instrumentation is on. */
  datatype Sym = Sym(name: string, active: bool)

  /** One element of the `functions` array of a PUT body, as the JSON scanner leaves it. */
  datatype Element = Element(name: Option<string>, active: Option<bool>)

  datatype Event =
    | HttpRequest(uri: string, httpMethod: string, elements: seq<Element>)
    | OtherEvent

  /** What is sent back: an error status, or a 200 response with the given body. */
  datatype Reply = Error(code: int) | Listing(body: string)

  // ---------------------------------------------------------------------------
  // is_equal
  // ---------------------------------------------------------------------------

  /** Whether the first `n` bytes of `s1` and `s2` agree, compared from the front like `memcmp`. */
  function SameBytes(s1: string, s2: string, n: nat): (r: bool)
    requires n <= |s1| && n <= |s2|
    ensures r <==> forall i :: 0 <= i < n ==> s1[i] == s2[i]
  {
    n == 0 || (SameBytes(s1, s2, n - 1) && s1[n - 1] == s2[n - 1])
  }

  /** `is_equal`: same length, then the bytes of the shorter-or-equal length compared. */
  function IsEqual(s1: string, s2: string): (r: bool)
    ensures r <==> s1 == s2
  {
    |s1| == |s2| && SameBytes(s1, s2, |s2|)
  }

  // ---------------------------------------------------------------------------
  // The list response
  // ---------------------------------------------------------------------------

  const ListOpen: string := "{ \"functions\": ["
  const ListClose: string := "] }\n"
  const NameOpen: string := "{\"name\":\""
  const ActiveKey: string := "\", \"active\":"
  const Separator: string := ", "

  /** One function as `handle_list` prints it; the name goes out verbatim. */
  function Entry(s: Sym): string
  {
    NameOpen + s.name + ActiveKey + (if s.active then "true" else "false") + "}"
  }

  /** The printed entries, in table order. */
  function Rendered(syms: seq<Sym>): (r: seq<string>)
    ensures |r| == |syms|
  {
    seq(|syms|, i requires 0 <= i < |syms| => Entry(syms[i]))
  }

  /** Strings separated by `, `, with no separator after the last. */
  function JoinWith(parts: seq<string>): string
  {
    if |parts| == 0 then ""
    else if |parts| == 1 then parts[0]
    else parts[0] + Separator + JoinWith(parts[1..])
  }

  function ListBody(syms: seq<Sym>): string
  {
    ListOpen + JoinWith(Rendered(syms)) + ListClose
  }

  lemma {:induction false} JoinWithSnoc(parts: seq<string>, p: string)
    ensures JoinWith(parts + [p]) == JoinWith(parts) + (if |parts| > 0 then Separator else "") + p
    decreases |parts|
  {
    if |parts| == 0 {
      assert parts + [p] == [p];
    } else if |parts| == 1 {
      assert (parts + [p])[1..] == [p];
    } else {
      assert (parts + [p])[1..] == parts[1..] + [p];
      JoinWithSnoc(parts[1..], p);
    }
  }

  lemma JoinWithCons(parts: seq<string>)
    requires |parts| >= 2
    ensures JoinWith(parts) == parts[0] + (Separator + JoinWith(parts[1..]))
  {
  }

  lemma JoinWithNonEmpty(parts: seq<string>)
    requires |parts| > 0 && parts[0] != ""
    ensures JoinWith(parts) != ""
  {
    if |parts| > 1 {
      assert JoinWith(parts)[0] == parts[0][0];
    }
  }

  lemma RenderedTail(syms: seq<Sym>)
    requires |syms| > 0
    ensures Rendered(syms)[0] == Entry(syms[0]) && Rendered(syms)[1..] == Rendered(syms[1..])
  {
  }

  lemma EntryNonEmpty(e: Sym)
    ensures Entry(e) != ""
  {
    assert |Entry(e)| >= |NameOpen|;
  }

  // A reader of the list response, to show that the text determines the table.

  /** `s` without the prefix `p`, if it starts with `p`. */
  function DropPrefix(p: string, s: string): (r: Option<string>)
    ensures r.Some? ==> |r.value| == |s| - |p|
  {
    if |p| == 0 then Some(s)
    else if |s| > 0 && s[0] == p[0] then DropPrefix(p[1..], s[1..])
    else None
  }

  lemma {:induction false} DropPrefixOf(p: string, tail: string)
    ensures DropPrefix(p, p + tail) == Some(tail)
    decreases |p|
  {
    if |p| > 0 {
      assert (p + tail)[1..] == p[1..] + tail;
      DropPrefixOf(p[1..], tail);
    } else {
      assert p + tail == tail;
    }
  }

  /** The index of the first `"` in `s`, or `|s|` when there is none. */
  function QuoteIndex(s: string): (k: nat)
    ensures k <= |s|
    ensures k < |s| ==> s[k] == '"'
    ensures forall i :: 0 <= i < k ==> s[i] != '"'
  {
    if s == [] then 0 else if s[0] == '"' then 0 else 1 + QuoteIndex(s[1..])
  }

  lemma {:induction false} QuoteIndexAfter(a: string, b: string)
    requires '"' !in a && |b| > 0 && b[0] == '"'
    ensures QuoteIndex(a + b) == |a|
    decreases |a|
  {
    if a == [] {
      assert a + b == b;
    } else {
      assert (a + b)[0] == a[0];
      assert (a + b)[1..] == a[1..] + b;
      QuoteIndexAfter(a[1..], b);
    }
  }

  /** Reads `true}` or `false}` from the front of `v`. */
  function ReadFlag(v: string): (r: Option<(bool, string)>)
    ensures r.Some? ==> |r.value.1| < |v|
  {
    match DropPrefix("true}", v)
    case Some(rest) => Some((true, rest))
    case None =>
      match DropPrefix("false}", v)
      case Some(rest) => Some((false, rest))
      case None => None
  }

  /** Reads the name up to the first `"`, the `active` key and the flag. */
  function ReadNamed(t: string): (r: Option<(Sym, string)>)
    ensures r.Some? ==> |r.value.1| < |t|
  {
    var q := QuoteIndex(t);
    match DropPrefix(ActiveKey, t[q..])
    case None => None
    case Some(v) =>
      match ReadFlag(v)
      case None => None
      case Some((b, rest)) => Some((Sym(t[..q], b), rest))
  }

  /** Reads one entry from the front of `s`, returning it and the text after it. */
  function ReadEntry(s: string): (r: Option<(Sym, string)>)
    ensures r.Some? ==> |r.value.1| < |s|
  {
    match DropPrefix(NameOpen, s)
    case None => None
    case Some(t) => ReadNamed(t)
  }

  /** Reads entries separated by `, ` until the text is used up. */
  function ReadEntries(s: string): Option<seq<Sym>>
    decreases |s|
  {
    if s == "" then Some([])
    else match ReadEntry(s)
      case None => None
      case Some((e, rest)) =>
        if rest == "" then Some([e])
        else match DropPrefix(Separator, rest)
          case None => None
          case Some(more) =>
            if more == "" then None
            else match ReadEntries(more)
              case None => None
              case Some(es) => Some([e] + es)
  }

  function ReadList(body: string): Option<seq<Sym>>
  {
    match DropPrefix(ListOpen, body)
    case None => None
    case Some(t) =>
      if |t| >= |ListClose| && t[|t| - |ListClose|..] == ListClose then ReadEntries(t[..|t| - |ListClose|])
      else None
  }

  predicate QuoteFree(syms: seq<Sym>)
  {
    forall i :: 0 <= i < |syms| ==> '"' !in syms[i].name
  }

  lemma ReadFlagOf(b: bool, tail: string)
    ensures ReadFlag((if b then "true" else "false") + "}" + tail) == Some((b, tail))
  {
    if b {
      assert "true" + "}" + tail == "true}" + tail;
      DropPrefixOf("true}", tail);
    } else {
      var v := "false" + "}" + tail;
      assert v == "false}" + tail;
      DropPrefixOf("false}", tail);
      assert DropPrefix("true}", v).None? by { assert v[0] == 'f'; }
    }
  }

  lemma ReadEntryOfEntry(e: Sym, tail: string)
    requires '"' !in e.name
    ensures ReadEntry(Entry(e) + tail) == Some((e, tail))
  {
    var flag := (if e.active then "true" else "false") + "}";
    var v := flag + tail;
    var u := ActiveKey + v;
    var t := e.name + u;
    assert Entry(e) + tail == NameOpen + (e.name + (ActiveKey + (flag + tail)));
    DropPrefixOf(NameOpen, t);
    QuoteIndexAfter(e.name, u);
    assert t[..|e.name|] == e.name && t[|e.name|..] == u;
    DropPrefixOf(ActiveKey, v);
    ReadFlagOf(e.active, tail);
  }

  lemma ReadEntriesOne(s: string, e: Sym)
    requires ReadEntry(s) == Some((e, ""))
    ensures ReadEntries(s) == Some([e])
  {
  }

  lemma {:induction false} ReadJoined(syms: seq<Sym>)
    requires QuoteFree(syms)
    ensures ReadEntries(JoinWith(Rendered(syms))) == Some(syms)
    decreases |syms|
  {
    if |syms| == 1 {
      ReadJoinedOne(syms[0]);
      assert syms == [syms[0]];
    } else if |syms| > 1 {
      ReadJoined(syms[1..]);
      ReadJoinedCons(syms);
    }
  }

  lemma ReadJoinedOne(e: Sym)
    requires '"' !in e.name
    ensures ReadEntries(JoinWith(Rendered([e]))) == Some([e])
  {
    assert Rendered([e]) == [Entry(e)];
    ReadEntryOfEntry(e, "");
    assert Entry(e) + "" == Entry(e);
    ReadEntriesOne(Entry(e), e);
  }

  lemma ReadJoinedCons(syms: seq<Sym>)
    requires |syms| >= 2 && '"' !in syms[0].name
    requires ReadEntries(JoinWith(Rendered(syms[1..]))) == Some(syms[1..])
    ensures ReadEntries(JoinWith(Rendered(syms))) == Some(syms)
  {
    var parts := Rendered(syms);
    RenderedTail(syms);
    JoinWithCons(parts);
    RenderedTail(syms[1..]);
    EntryNonEmpty(syms[1]);
    JoinWithNonEmpty(Rendered(syms[1..]));
    ReadJoinedStep(syms[0], JoinWith(Rendered(syms[1..])), syms[1..]);
    assert [syms[0]] + syms[1..] == syms;
  }

  /** An entry, a separator and more readable entries read as one more entry. */
  lemma ReadJoinedStep(e: Sym, rest: string, es: seq<Sym>)
    requires '"' !in e.name && rest != "" && ReadEntries(rest) == Some(es)
    ensures ReadEntries(Entry(e) + (Separator + rest)) == Some([e] + es)
  {
    ReadEntryOfEntry(e, Separator + rest);
    ConsRead(Entry(e) + (Separator + rest), e, rest, es);
  }

  lemma ConsRead(s: string, e: Sym, rest: string, es: seq<Sym>)
    requires ReadEntry(s) == Some((e, Separator + rest)) && rest != "" && ReadEntries(rest) == Some(es)
    ensures ReadEntries(s) == Some([e] + es)
  {
    DropPrefixOf(Separator, rest);
  }

  /**
   * The list response determines the table it was built from, as long as no
   * name contains a double quote (names are printed without escaping).
   */
  lemma ListBodyRoundTrip(syms: seq<Sym>)
    requires QuoteFree(syms)
    ensures ReadList(ListBody(syms)) == Some(syms)
  {
    var joined := JoinWith(Rendered(syms));
    var t := joined + ListClose;
    assert ListBody(syms) == ListOpen + t;
    DropPrefixOf(ListOpen, t);
    assert t[..|t| - |ListClose|] == joined;
    assert t[|t| - |ListClose|..] == ListClose;
    ReadJoined(syms);
  }

  /** One turn of the `handle_list` loop: the entry, then a separator unless it is the last. */
  lemma ListStep(head: string, parts: seq<string>, i: nat)
    requires i < |parts|
    ensures head + JoinWith(parts[..i]) + (if 0 < i < |parts| then Separator else "") + parts[i] + (if i == |parts| - 1 then "" else Separator)
         == head + JoinWith(parts[..i + 1]) + (if 0 < i + 1 < |parts| then Separator else "")
  {
    var before := parts[..i];
    assert parts[..i + 1] == before + [parts[i]];
    JoinWithSnoc(before, parts[i]);
    var sepBefore := if 0 < i < |parts| then Separator else "";
    var sepAfter := if i == |parts| - 1 then "" else Separator;
    assert sepBefore == if |before| > 0 then Separator else "";
    assert sepAfter == if 0 < i + 1 < |parts| then Separator else "";
    var joined := JoinWith(before);
    assert head + joined + sepBefore + parts[i] + sepAfter == head + (joined + sepBefore + parts[i]) + sepAfter;
  }

  // ---------------------------------------------------------------------------
  // The set request
  // ---------------------------------------------------------------------------

  /** `find_symname`: the first symbol with that name. */
  function FindSym(t: seq<Sym>, name: string): (r: Option<nat>)
    ensures r.Some? ==> r.value < |t| && t[r.value].name == name
    ensures r.Some? ==> forall j :: 0 <= j < r.value ==> t[j].name != name
    ensures r.None? ==> forall j :: 0 <= j < |t| ==> t[j].name != name
  {
    if |t| == 0 then None
    else if t[0].name == name then Some(0)
    else match FindSym(t[1..], name)
      case None => None
      case Some(k) => Some(k + 1)
  }

  /** The table after one named element: the found symbol gets the element's setting, on by default. */
  function Set(t: seq<Sym>, i: nat, e: Element): seq<Sym>
    requires i < |t|
  {
    t[i := Sym(t[i].name, if e.active.Some? then e.active.value else true)]
  }

  datatype SetResult = SetResult(table: seq<Sym>, ok: bool)

  /**
   * The `handle_set` loop on values: elements without a name are skipped,
   * each named one is applied in turn, and the first unknown name stops
   * the loop with what was applied before it kept.
   */
  function ApplyElements(t: seq<Sym>, els: seq<Element>): (r: SetResult)
    ensures |r.table| == |t|
    ensures forall i :: 0 <= i < |t| ==> r.table[i].name == t[i].name
    decreases |els|
  {
    if |els| == 0 then SetResult(t, true)
    else if els[0].name.None? then ApplyElements(t, els[1..])
    else match FindSym(t, els[0].name.value)
      case None => SetResult(t, false)
      case Some(i) => ApplyElements(Set(t, i, els[0]), els[1..])
  }

  /** Whether every element that carries a name names a symbol of the table. */
  predicate AllKnown(t: seq<Sym>, els: seq<Element>)
  {
    forall k :: 0 <= k < |els| && els[k].name.Some? ==> FindSym(t, els[k].name.value).Some?
  }

  /** The first element with a name the table does not have, if any. */
  function FirstUnknown(t: seq<Sym>, els: seq<Element>): (r: Option<nat>)
    ensures r.None? <==> AllKnown(t, els)
    ensures r.Some? ==> r.value < |els| && els[r.value].name.Some? && FindSym(t, els[r.value].name.value).None?
    ensures r.Some? ==> AllKnown(t, els[..r.value])
  {
    if |els| == 0 then None
    else if els[0].name.Some? && FindSym(t, els[0].name.value).None? then Some(0)
    else match FirstUnknown(t, els[1..])
      case None =>
        assert forall k :: 1 <= k < |els| ==> els[k] == els[1..][k - 1];
        None
      case Some(k) =>
        assert els[..k + 1] == [els[0]] + els[1..][..k];
        Some(k + 1)
  }

  lemma FindSymSameNames(t: seq<Sym>, u: seq<Sym>, name: string)
    requires |t| == |u| && forall i :: 0 <= i < |t| ==> t[i].name == u[i].name
    ensures FindSym(t, name) == FindSym(u, name)
  {
    if FindSym(t, name).Some? {
      assert FindSym(u, name).Some?;
    }
  }

  /** The set request succeeds exactly when every named element names a known symbol. */
  lemma {:induction false} ApplyOkIff(t: seq<Sym>, els: seq<Element>)
    ensures ApplyElements(t, els).ok <==> AllKnown(t, els)
    decreases |els|
  {
    if |els| == 0 {
    } else {
      assert forall k :: 1 <= k < |els| ==> els[k] == els[1..][k - 1];
      if els[0].name.None? {
        ApplyOkIff(t, els[1..]);
      } else {
        match FindSym(t, els[0].name.value)
        case None =>
        case Some(i) =>
          var t' := Set(t, i, els[0]);
          ApplyOkIff(t', els[1..]);
          forall k | 0 <= k < |els[1..]| && els[1..][k].name.Some?
            ensures FindSym(t', els[1..][k].name.value) == FindSym(t, els[1..][k].name.value)
          {
            FindSymSameNames(t, t', els[1..][k].name.value);
          }
      }
    }
  }

  /** A failed set request leaves applied exactly the elements before the first unknown name. */
  lemma {:induction false} ApplyStopsAtFirstUnknown(t: seq<Sym>, els: seq<Element>)
    requires FirstUnknown(t, els).Some?
    ensures ApplyElements(t, els).table == ApplyElements(t, els[..FirstUnknown(t, els).value]).table
    decreases |els|
  {
    var k := FirstUnknown(t, els).value;
    if k == 0 {
    } else {
      assert els[..k][1..] == els[1..][..k - 1];
      if els[0].name.None? {
        ApplyStopsAtFirstUnknown(t, els[1..]);
      } else {
        var i := FindSym(t, els[0].name.value).value;
        var t' := Set(t, i, els[0]);
        FirstUnknownSameNames(t, t', els[1..]);
        ApplyStopsAtFirstUnknown(t', els[1..]);
      }
    }
  }

  lemma {:induction false} FirstUnknownSameNames(t: seq<Sym>, u: seq<Sym>, els: seq<Element>)
    requires |t| == |u| && forall i :: 0 <= i < |t| ==> t[i].name == u[i].name
    ensures FirstUnknown(t, els) == FirstUnknown(u, els)
    decreases |els|
  {
    if |els| > 0 {
      if els[0].name.Some? {
        FindSymSameNames(t, u, els[0].name.value);
      }
      FirstUnknownSameNames(t, u, els[1..]);
    }
  }

  /** The setting the last element naming `name` asks for, if any element names it. */
  function LastSetting(els: seq<Element>, name: string): (r: Option<bool>)
    ensures r.Some? <==> exists k :: 0 <= k < |els| && els[k].name == Some(name)
    decreases |els|
  {
    if |els| == 0 then None
    else
      var e := els[|els| - 1];
      if e.name == Some(name) then Some(if e.active.Some? then e.active.value else true)
      else
        var r := LastSetting(els[..|els| - 1], name);
        assert forall k :: 0 <= k < |els| - 1 ==> els[k] == els[..|els| - 1][k];
        r
  }

  /**
   * A successful set request: the first symbol of each name ends with the
   * setting of the last element naming it (on when the element has none),
   * and every other symbol is untouched.
   */
  lemma {:induction false} ApplyEffect(t: seq<Sym>, els: seq<Element>)
    requires AllKnown(t, els)
    ensures forall i :: 0 <= i < |t| ==>
      ApplyElements(t, els).table[i] ==
        if FindSym(t, t[i].name) == Some(i) && LastSetting(els, t[i].name).Some?
        then Sym(t[i].name, LastSetting(els, t[i].name).value)
        else t[i]
    decreases |els|
  {
    if |els| == 0 {
    } else {
      var init := els[..|els| - 1];
      var e := els[|els| - 1];
      assert els == init + [e];
      assert AllKnown(t, init) by {
        assert forall k :: 0 <= k < |init| ==> init[k] == els[k];
      }
      ApplyEffect(t, init);
      ApplyOkIff(t, init);
      ApplySnoc(t, init, e);
      var mid := ApplyElements(t, init).table;
      if e.name.Some? {
        FindSymSameNames(t, mid, e.name.value);
        forall i | 0 <= i < |t| ensures FindSym(mid, t[i].name) == FindSym(t, t[i].name) {
          FindSymSameNames(t, mid, t[i].name);
        }
      }
    }
  }

  /** Applying one more element after a successful run. */
  lemma {:induction false} ApplySnoc(t: seq<Sym>, els: seq<Element>, e: Element)
    requires ApplyElements(t, els).ok
    ensures ApplyElements(t, els + [e]) ==
      var mid := ApplyElements(t, els).table;
      if e.name.None? then SetResult(mid, true)
      else match FindSym(mid, e.name.value)
        case None => SetResult(mid, false)
        case Some(i) => SetResult(Set(mid, i, e), true)
    decreases |els|
  {
    if |els| == 0 {
      assert [e][1..] == [];
    } else {
      assert (els + [e])[1..] == els[1..] + [e];
      if els[0].name.None? {
        ApplySnoc(t, els[1..], e);
      } else {
        var i := FindSym(t, els[0].name.value).value;
        ApplySnoc(Set(t, i, els[0]), els[1..], e);
      }
    }
  }

  // ---------------------------------------------------------------------------
  // The server
  // ---------------------------------------------------------------------------

  const InstrumentationUri: string := "/instrumentation"
  const GetMethod: string := "GET"
  const PutMethod: string := "PUT"

  /** The function table the server reads and patches. */
  class Server {
    var symbols: seq<Sym>

    constructor (symbols: seq<Sym>)
      ensures this.symbols == symbols
    {
      this.symbols := symbols;
    }

    /** `handle_list`: the opening, one entry per symbol with `, ` between, the closing. */
    method HandleList() returns (reply: Reply)
      ensures reply == Listing(ListBody(symbols))
      ensures QuoteFree(symbols) ==> ReadList(reply.body) == Some(symbols)
    {
      var out := ListOpen;
      ghost var parts := Rendered(symbols);
      var i := 0;
      while i < |symbols|
        invariant 0 <= i <= |symbols|
        invariant out == ListOpen + JoinWith(parts[..i]) + (if 0 < i < |symbols| then Separator else "")
      {
        ListStep(ListOpen, parts, i);
        assert parts[i] == Entry(symbols[i]);
        out := out + Entry(symbols[i]) + (if i == |symbols| - 1 then "" else Separator);
        i := i + 1;
      }
      assert parts[..i] == parts;
      assert ListOpen + JoinWith(parts) + "" == ListOpen + JoinWith(parts);
      out := out + ListClose;
      reply := Listing(out);
      if QuoteFree(symbols) {
        ListBodyRoundTrip(symbols);
      }
    }

    /** `handle_set`: apply the elements in order; 400 at the first unknown name, else the list. */
    method HandleSet(elements: seq<Element>) returns (reply: Reply)
      modifies this
      ensures symbols == ApplyElements(old(symbols), elements).table
      ensures reply == if AllKnown(old(symbols), elements) then Listing(ListBody(symbols)) else Error(400)
    {
      ghost var start := symbols;
      var i := 0;
      while i < |elements|
        invariant 0 <= i <= |elements|
        invariant ApplyElements(start, elements) == ApplyElements(symbols, elements[i..])
        invariant |symbols| == |start| && forall j :: 0 <= j < |start| ==> symbols[j].name == start[j].name
      {
        assert elements[i..][1..] == elements[i + 1..];
        var e := elements[i];
        if e.name.Some? {
          var found := FindSym(symbols, e.name.value);
          if found.None? {
            ApplyOkIff(start, elements);
            return Error(400);
          }
          symbols := Set(symbols, found.value, e);
        }
        i := i + 1;
      }
      ApplyOkIff(start, elements);
      reply := HandleList();
    }

    /** `ev_handler`: only HTTP requests are answered, and only on `/instrumentation`. */
    method EvHandler(ev: Event) returns (reply: Option<Reply>)
      modifies this
      ensures ev.OtherEvent? ==> reply.None? && symbols == old(symbols)
      ensures ev.HttpRequest? && ev.uri != InstrumentationUri ==> reply == Some(Error(404)) && symbols == old(symbols)
      ensures ev.HttpRequest? && ev.uri == InstrumentationUri && ev.httpMethod == GetMethod ==>
        reply == Some(Listing(ListBody(symbols))) && symbols == old(symbols)
      ensures ev.HttpRequest? && ev.uri == InstrumentationUri && ev.httpMethod == PutMethod ==>
        symbols == ApplyElements(old(symbols), ev.elements).table &&
        reply == Some(if AllKnown(old(symbols), ev.elements) then Listing(ListBody(symbols)) else Error(400))
      ensures ev.HttpRequest? && ev.uri == InstrumentationUri && ev.httpMethod != GetMethod && ev.httpMethod != PutMethod ==>
        reply == Some(Error(405)) && symbols == old(symbols)
    {
      match ev
      case OtherEvent =>
        reply := None;
      case HttpRequest(uri, httpMethod, elements) =>
        if uri == InstrumentationUri {
          if IsEqual(httpMethod, GetMethod) {
            var r := HandleList();
            reply := Some(r);
          } else if IsEqual(httpMethod, PutMethod) {
            var r := HandleSet(elements);
            reply := Some(r);
          } else {
            reply := Some(Error(405));
          }
        } else {
          reply := Some(Error(404));
        }
    }
  }
}

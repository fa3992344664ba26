/**
 * The function filter of client/dynamic_inst_client/util.py: a filter string
 * `op:op:regex` is parsed into an optional status test, an optional selection
 * test and a name pattern, and the filter is then applied to
 * (name, active?, selected?) triples.
 */
module FilterLanguage {
  import opened Wrappers

  // ---------------------------------------------------------------------------
  // The regular-expression engine

  /**
   * Python's `re` module, left abstract: `compiles(p)` says whether
   * `re.compile(p)` succeeds, and `matchAt0(p, w)` whether `match(w)` of the
   * compiled pattern is not None, i.e. the pattern matches at the start of `w`
   * (lookahead, `$`, `\b` and the like may look at the rest of `w`).
   */
  datatype RegexEngine = RegexEngine(compiles: string -> bool, matchAt0: (string, string) -> bool)

  /** `compiled.match(name) is not None` */
  predicate MatchesAt0(re: RegexEngine, pattern: string, name: string)
  {
    re.matchAt0(pattern, name)
  }

  /** The characters that are special in Python's regular-expression syntax. */
  const Metacharacters: string := ".^$*+?{}[]\\|()"

  predicate Literal(p: string)
  {
    forall i :: 0 <= i < |p| ==> p[i] !in Metacharacters
  }

  /** `w` begins with `p`. */
  predicate StartsWith(w: string, p: string)
  {
    |p| <= |w| && w[..|p|] == p
  }

  /**
   * What every concrete example below assumes of the engine, and what Python's
   * `re` does: a pattern without metacharacters compiles and matches at the
   * start of exactly the strings that begin with it.
   */
  ghost predicate TreatsLiteralsLiterally(re: RegexEngine)
  {
    && (forall p :: Literal(p) ==> re.compiles(p))
    && (forall p, w :: Literal(p) ==> (re.matchAt0(p, w) <==> StartsWith(w, p)))
  }

  /** For a literal pattern, the name test is a prefix test. */
  lemma LiteralMatchIsPrefix(re: RegexEngine, p: string, name: string)
    requires TreatsLiteralsLiterally(re) && Literal(p)
    ensures MatchesAt0(re, p, name) <==> |p| <= |name| && name[..|p|] == p
  {
  }

  // ---------------------------------------------------------------------------
  // Splitting on ':' (Python's `str.split(':')`)

  function Split(s: string): (r: seq<string>)
    ensures |r| >= 1
    ensures forall i :: 0 <= i < |r| ==> ':' !in r[i]
  {
    if s == [] then [""]
    else
      var rest := Split(s[1..]);
      if s[0] == ':' then [""] + rest else [[s[0]] + rest[0]] + rest[1..]
  }

  /** `':'.join(parts)`, the inverse of `Split`. */
  function Join(parts: seq<string>): string
    requires |parts| >= 1
  {
    if |parts| == 1 then parts[0] else parts[0] + ":" + Join(parts[1..])
  }

  lemma {:induction false} JoinSplit(s: string)
    ensures Join(Split(s)) == s
  {
    if s != [] {
      JoinSplit(s[1..]);
      var rest := Split(s[1..]);
      if s[0] == ':' {
        assert Split(s)[1..] == rest;
      } else {
        var r := Split(s);
        assert r[0] == [s[0]] + rest[0] && r[1..] == rest[1..];
        if |rest| == 1 {
          assert s == [s[0]] + rest[0];
        } else {
          assert Join(r) == [s[0]] + rest[0] + ":" + Join(rest[1..]);
          assert s == [s[0]] + s[1..];
        }
      }
    }
  }

  /** Splitting `a + t`, where `a` holds no ':', glues `a` onto the first piece of `t`. */
  lemma {:induction false} SplitColonFreePrefix(a: string, t: string)
    requires ':' !in a
    ensures Split(a + t) == [a + Split(t)[0]] + Split(t)[1..]
  {
    if a != [] {
      assert (a + t)[1..] == a[1..] + t && (a + t)[0] == a[0];
      assert a[0] in a;
      SplitColonFreePrefix(a[1..], t);
      var rest := Split(a[1..] + t);
      assert rest[0] == a[1..] + Split(t)[0] && rest[1..] == Split(t)[1..];
      assert [a[0]] + rest[0] == a + Split(t)[0] by {
        assert a == [a[0]] + a[1..];
      }
      assert Split(a + t) == [[a[0]] + rest[0]] + rest[1..];
    } else {
      assert a + t == t && a + Split(t)[0] == Split(t)[0];
      assert Split(t) == [Split(t)[0]] + Split(t)[1..];
    }
  }

  lemma {:induction false} SplitJoin(parts: seq<string>)
    requires |parts| >= 1
    requires forall i :: 0 <= i < |parts| ==> ':' !in parts[i]
    ensures Split(Join(parts)) == parts
  {
    if |parts| == 1 {
      SplitColonFreePrefix(parts[0], "");
      assert Split("") == [""];
      assert parts[0] + "" == parts[0];
      assert parts == [parts[0]];
    } else {
      SplitJoin(parts[1..]);
      var t := ":" + Join(parts[1..]);
      SplitColonFreePrefix(parts[0], t);
      assert t[0] == ':' && t[1..] == Join(parts[1..]);
      assert Split(t) == [""] + parts[1..];
      assert Split(t)[0] == "" && Split(t)[1..] == parts[1..];
      assert parts[0] + "" == parts[0];
      assert Join(parts) == parts[0] + t;
      assert parts == [parts[0]] + parts[1..];
    }
  }

  /** The trailing piece of a filter string: the regular expression. */
  function Pattern(text: string): string
  {
    var parts := Split(text); parts[|parts| - 1]
  }

  /** The pieces before the last ':': the ops. */
  function OpWords(text: string): seq<string>
  {
    var parts := Split(text); parts[..|parts| - 1]
  }

  /** A text built from three colon-free pieces has the first two as op words and the third as pattern. */
  lemma SplitsIntoThree(text: string, a: string, b: string, c: string)
    requires ':' !in a && ':' !in b && ':' !in c
    requires text == a + ":" + b + ":" + c
    ensures OpWords(text) == [a, b] && Pattern(text) == c
  {
    var parts := [a, b, c];
    assert Join(parts[2..]) == c;
    assert Join(parts[1..]) == b + ":" + c;
    assert Join(parts) == text;
    SplitJoin(parts);
  }

  /** A text built from two colon-free pieces has the first as its one op word and the second as pattern. */
  lemma SplitsIntoTwo(text: string, a: string, b: string)
    requires ':' !in a && ':' !in b
    requires text == a + ":" + b
    ensures OpWords(text) == [a] && Pattern(text) == b
  {
    var parts := [a, b];
    assert Join(parts[1..]) == b;
    assert Join(parts) == text;
    SplitJoin(parts);
  }

  // ---------------------------------------------------------------------------
  // The ops

  datatype StatusOp = Active | Nopped
  datatype SelectionOp = Selected | Unselected

  /** The status and selection tests set so far. */
  datatype Ops = Ops(status: Option<StatusOp>, selection: Option<SelectionOp>)

  /** One op word applied to the tests set so far; `None` is the ValueError. */
  function Step(o: Ops, word: string): Option<Ops>
  {
    if word == "active" then
      if o.status.Some? then None else Some(o.(status := Some(Active)))
    else if word == "nopped" then
      if o.status.Some? then None else Some(o.(status := Some(Nopped)))
    else if word == "selected" then
      if o.selection.Some? then None else Some(o.(selection := Some(Selected)))
    else if word == "unselected" then
      if o.selection.Some? then None else Some(o.(selection := Some(Unselected)))
    else None
  }

  /** The tests reached by the loop over the op words, and whether it ran to the end. */
  datatype Scan = Scan(ops: Ops, ok: bool)

  function ScanOps(o: Ops, words: seq<string>): Scan
    decreases |words|
  {
    if words == [] then Scan(o, true)
    else match Step(o, words[0])
      case None => Scan(o, false)
      case Some(o') => ScanOps(o', words[1..])
  }

  predicate IsStatusWord(w: string) { w == "active" || w == "nopped" }
  predicate IsSelectionWord(w: string) { w == "selected" || w == "unselected" }

  /**
   * The grammar of the op words, stated on its own: every word is an op, and
   * no two words test the same axis.
   */
  predicate WellFormedOps(words: seq<string>)
  {
    && (forall i :: 0 <= i < |words| ==> IsStatusWord(words[i]) || IsSelectionWord(words[i]))
    && (forall i, j :: 0 <= i < j < |words| && IsStatusWord(words[i]) ==> !IsStatusWord(words[j]))
    && (forall i, j :: 0 <= i < j < |words| && IsSelectionWord(words[i]) ==> !IsSelectionWord(words[j]))
  }

  /** The status test named by well-formed op words. */
  function NamedStatus(words: seq<string>): Option<StatusOp>
  {
    if "active" in words then Some(Active) else if "nopped" in words then Some(Nopped) else None
  }

  /** The selection test named by well-formed op words. */
  function NamedSelection(words: seq<string>): Option<SelectionOp>
  {
    if "selected" in words then Some(Selected) else if "unselected" in words then Some(Unselected) else None
  }

  /** The loop accepts exactly the well-formed words that do not repeat an axis already set in `o`. */
  lemma {:induction false} ScanAcceptsIff(o: Ops, words: seq<string>)
    ensures ScanOps(o, words).ok <==>
      && WellFormedOps(words)
      && (o.status.Some? ==> forall i :: 0 <= i < |words| ==> !IsStatusWord(words[i]))
      && (o.selection.Some? ==> forall i :: 0 <= i < |words| ==> !IsSelectionWord(words[i]))
    decreases |words|
  {
    if words != [] {
      var w := words[0];
      assert forall i :: 1 <= i < |words| ==> words[i] == words[1..][i - 1];
      match Step(o, w)
      case None =>
      case Some(o') =>
        ScanAcceptsIff(o', words[1..]);
        if WellFormedOps(words) {
          assert forall i :: 0 <= i < |words| - 1 ==> words[1..][i] == words[i + 1];
        }
    }
  }

  /** A successful loop sets each test to the op that names it, or keeps the one already set. */
  lemma {:induction false} ScanNamesOps(o: Ops, words: seq<string>)
    requires ScanOps(o, words).ok
    ensures ScanOps(o, words).ops.status ==
      if o.status.Some? then o.status
      else if "active" in words then Some(Active)
      else if "nopped" in words then Some(Nopped)
      else None
    ensures ScanOps(o, words).ops.selection ==
      if o.selection.Some? then o.selection
      else if "selected" in words then Some(Selected)
      else if "unselected" in words then Some(Unselected)
      else None
    decreases |words|
  {
    if words != [] {
      var o' := Step(o, words[0]).value;
      ScanNamesOps(o', words[1..]);
      ScanAcceptsIff(o', words[1..]);
      assert words == [words[0]] + words[1..];
      forall w | w in words[1..] ensures w in words { }
    }
  }

  /**
   * A loop that stops early stops at the first op word it cannot apply, and
   * leaves the tests set by the words before it.
   */
  lemma {:induction false} ScanStopsAtFirstBadWord(o: Ops, words: seq<string>)
    requires !ScanOps(o, words).ok
    ensures exists k :: (0 <= k < |words|
      && ScanOps(o, words[..k]) == Scan(ScanOps(o, words).ops, true)
      && Step(ScanOps(o, words).ops, words[k]).None?)
    decreases |words|
  {
    match Step(o, words[0])
    case None =>
      assert words[..0] == [];
    case Some(o') =>
      ScanStopsAtFirstBadWord(o', words[1..]);
      var k :| 0 <= k < |words[1..]|
        && ScanOps(o', words[1..][..k]) == Scan(ScanOps(o', words[1..]).ops, true)
        && Step(ScanOps(o', words[1..]).ops, words[1..][k]).None?;
      assert words[..k + 1][0] == words[0] && words[..k + 1][1..] == words[1..][..k];
      assert words[1..][k] == words[k + 1];
  }

  // ---------------------------------------------------------------------------
  // Assigning the `filter` property

  /** The three fields of a filter. */
  datatype FilterState = FilterState(status: Option<StatusOp>, selection: Option<SelectionOp>, regex: Option<string>)

  const Unfiltered := FilterState(None, None, None)

  /** The fields after an assignment, and whether it completed (`false`: ValueError). */
  datatype Assignment = Assignment(state: FilterState, ok: bool)

  /** What `filter = text` does to the fields `prev`. */
  function Assign(re: RegexEngine, prev: FilterState, text: Option<string>): (r: Assignment)
    ensures text.None? ==> r.ok && r.state == FilterState(None, prev.selection, None)
    ensures text.Some? ==>
      (r.ok <==> WellFormedOps(OpWords(text.value)) && re.compiles(Pattern(text.value)))
    ensures !r.ok ==> r.state.regex == prev.regex
    ensures r.ok && text.Some? ==>
      && r.state.regex == Some(Pattern(text.value))
      && r.state.status == NamedStatus(OpWords(text.value))
      && r.state.selection == NamedSelection(OpWords(text.value))
  {
    match text
    case None => Assignment(FilterState(None, prev.selection, None), true)
    case Some(s) =>
      var scan := ScanOps(Ops(None, None), OpWords(s));
      ScanAcceptsIff(Ops(None, None), OpWords(s));
      if scan.ok then ScanNamesOps(Ops(None, None), OpWords(s)); Finish(re, prev, scan, Pattern(s))
      else Finish(re, prev, scan, Pattern(s))
  }

  function Finish(re: RegexEngine, prev: FilterState, scan: Scan, pattern: string): Assignment
  {
    var regex := if scan.ok && re.compiles(pattern) then Some(pattern) else prev.regex;
    Assignment(FilterState(scan.ops.status, scan.ops.selection, regex), scan.ok && re.compiles(pattern))
  }

  /** A failed assignment leaves exactly the tests set by the op words read before the failure. */
  lemma FailedAssignKeepsParsedOps(re: RegexEngine, prev: FilterState, text: string)
    requires !Assign(re, prev, Some(text)).ok
    ensures var st := Assign(re, prev, Some(text)).state;
      exists k :: 0 <= k <= |OpWords(text)|
        && ScanOps(Ops(None, None), OpWords(text)[..k]) == Scan(Ops(st.status, st.selection), true)
        && (k < |OpWords(text)| ==> Step(Ops(st.status, st.selection), OpWords(text)[k]).None?)
  {
    var words := OpWords(text);
    var scan := ScanOps(Ops(None, None), words);
    if scan.ok {
      assert words[..|words|] == words;
    } else {
      ScanStopsAtFirstBadWord(Ops(None, None), words);
    }
  }

  // ---------------------------------------------------------------------------
  // The filter object

  class Filter {
    /** The engine `re.compile` and `match` stand for. */
    const re: RegexEngine
    var status: Option<StatusOp>
    var selection: Option<SelectionOp>
    /** The source of the compiled pattern, `None` for no name test. */
    var regex: Option<string>

    function State(): FilterState
      reads this
    {
      FilterState(status, selection, regex)
    }

    /** The stored pattern is one the engine compiled. */
    ghost predicate Valid()
      reads this
    {
      regex.Some? ==> re.compiles(regex.value)
    }

    /** `Filter()`: no test at all. */
    constructor (re: RegexEngine)
      ensures this.re == re && State() == Unfiltered && Valid()
    {
      this.re := re;
      status, selection, regex := None, None, None;
    }

    /** `Filter(text)`: a fresh filter, then the assignment of `text` (which may raise ValueError). */
    static method Create(re: RegexEngine, text: Option<string>) returns (f: Filter, ok: bool)
      ensures fresh(f) && f.re == re && f.Valid()
      ensures Assignment(f.State(), ok) == Assign(re, Unfiltered, text)
    {
      f := new Filter(re);
      if text.Some? {
        ok := f.SetFilter(text);
      } else {
        ok := true;
      }
    }

    /**
     * The `filter` property setter. On ValueError (`ok == false`) the fields
     * keep whatever the loop had set before it raised.
     */
    method SetFilter(text: Option<string>) returns (ok: bool)
      requires Valid()
      modifies this
      ensures Valid()
      ensures Assignment(State(), ok) == Assign(re, old(State()), text)
    {
      if text.None? {
        status := None;
        regex := None;
        return true;
      }
      var parts := Split(text.value);
      var pattern := parts[|parts| - 1];
      var words := parts[..|parts| - 1];
      status := None;
      selection := None;
      var i := 0;
      while i < |words|
        invariant 0 <= i <= |words|
        invariant regex == old(regex)
        invariant ScanOps(Ops(None, None), words) == ScanOps(Ops(status, selection), words[i..])
      {
        var w := words[i];
        assert words[i..][0] == w && words[i..][1..] == words[i + 1..];
        if w == "active" {
          if status.Some? { return false; }
          status := Some(Active);
        } else if w == "nopped" {
          if status.Some? { return false; }
          status := Some(Nopped);
        } else if w == "selected" {
          if selection.Some? { return false; }
          selection := Some(Selected);
        } else if w == "unselected" {
          if selection.Some? { return false; }
          selection := Some(Unselected);
        } else {
          return false;
        }
        i := i + 1;
      }
      if !re.compiles(pattern) {
        return false;
      }
      regex := Some(pattern);
      return true;
    }

    /**
     * `filter(name, active, selected)`: each axis passed as `None` is not
     * tested; the name test is `re.match`.
     */
    predicate Admits(name: string, active: Option<bool>, selected: Option<bool>)
      reads this
    {
      if active.Some? && ((status == Some(Active) && !active.value) || (status == Some(Nopped) && active.value)) then
        false
      else if selected.Some? && ((selection == Some(Selected) && !selected.value) || (selection == Some(Unselected) && selected.value)) then
        false
      else if regex.Some? then
        MatchesAt0(re, regex.value, name)
      else
        true
    }
  }

  /**
   * A triple is admitted exactly when each axis that is both tested and given
   * agrees with its test and, when there is a pattern, `re.match` succeeds.
   */
  lemma AdmitsIff(f: Filter, name: string, active: Option<bool>, selected: Option<bool>)
    ensures f.Admits(name, active, selected) <==>
      && (active.None? || f.status.None? || active.value == (f.status == Some(Active)))
      && (selected.None? || f.selection.None? || selected.value == (f.selection == Some(Selected)))
      && (f.regex.None? || MatchesAt0(f.re, f.regex.value, name))
  {
    assert f.status.Some? ==> f.status.value == Active || f.status.value == Nopped;
    assert f.selection.Some? ==> f.selection.value == Selected || f.selection.value == Unselected;
  }

  // ---------------------------------------------------------------------------
  // Consequences for particular filter strings

  /** `Filter()` admits every triple. */
  lemma UnfilteredAdmitsAll(f: Filter, name: string, active: Option<bool>, selected: Option<bool>)
    requires f.State() == Unfiltered
    ensures f.Admits(name, active, selected)
  {
  }

  /** The empty filter string is accepted and then admits every triple. */
  lemma EmptyFilterAdmitsAll(f: Filter, prev: FilterState, text: string, name: string, active: Option<bool>, selected: Option<bool>)
    requires text == ""
    requires TreatsLiteralsLiterally(f.re)
    requires f.State() == Assign(f.re, prev, Some(text)).state
    ensures Assign(f.re, prev, Some(text)).ok
    ensures f.Admits(name, active, selected)
  {
    assert Split(text) == [""];
    assert Literal("");
    LiteralMatchIsPrefix(f.re, "", name);
  }

  /** Setting the filter to None clears the status test and the pattern but keeps the selection test. */
  lemma ResetKeepsSelection(re: RegexEngine, prev: FilterState)
    ensures Assign(re, prev, None) == Assignment(FilterState(None, prev.selection, None), true)
  {
  }

  /** `active:nopped:` names the status axis twice and is rejected. */
  lemma DuplicateStatusRejected(re: RegexEngine, prev: FilterState, text: string)
    requires text == "active:nopped:"
    ensures !Assign(re, prev, Some(text)).ok
  {
    var parts := ["active", "nopped", ""];
    assert Join(parts) == text;
    SplitJoin(parts);
    assert OpWords(text) == ["active", "nopped"];
    assert IsStatusWord(OpWords(text)[0]) && IsStatusWord(OpWords(text)[1]);
  }

  /** `::x` has an empty op word and is rejected. */
  lemma EmptyOpWordRejected(re: RegexEngine, prev: FilterState, text: string)
    requires text == "::x"
    ensures !Assign(re, prev, Some(text)).ok
  {
    var parts := ["", "", "x"];
    assert Join(parts) == text;
    SplitJoin(parts);
    assert OpWords(text)[0] == "";
  }

  /** One status op and one selection op, in either order, are well formed and name those two tests. */
  lemma ActiveSelectedWords(words: seq<string>)
    requires words == ["active", "selected"] || words == ["selected", "active"]
    ensures WellFormedOps(words)
    ensures NamedStatus(words) == Some(Active) && NamedSelection(words) == Some(Selected)
  {
    assert IsStatusWord("active") && !IsSelectionWord("active");
    assert IsSelectionWord("selected") && !IsStatusWord("selected");
    assert "active" in words && "selected" in words;
  }

  /** `active:selected:x` sets both tests and the pattern `x`. */
  lemma ActiveSelectedAssigned(re: RegexEngine, prev: FilterState, text: string, x: string)
    requires TreatsLiteralsLiterally(re) && Literal(x) && ':' !in x
    requires text == "active" + ":" + "selected" + ":" + x || text == "selected" + ":" + "active" + ":" + x
    ensures Assign(re, prev, Some(text)) == Assignment(FilterState(Some(Active), Some(Selected), Some(x)), true)
  {
    if text == "active" + ":" + "selected" + ":" + x {
      SplitsIntoThree(text, "active", "selected", x);
    } else {
      SplitsIntoThree(text, "selected", "active", x);
    }
    ActiveSelectedWords(OpWords(text));
  }

  /** One op of each kind is accepted in either order, with the same result. */
  lemma EitherOrderAccepted(re: RegexEngine, prev: FilterState, text1: string, text2: string)
    requires text1 == "active:selected:x" && text2 == "selected:active:x"
    requires TreatsLiteralsLiterally(re)
    ensures Assign(re, prev, Some(text1)).ok
    ensures Assign(re, prev, Some(text1)) == Assign(re, prev, Some(text2))
  {
    assert Literal("x");
    assert text1 == "active" + ":" + "selected" + ":" + "x";
    assert text2 == "selected" + ":" + "active" + ":" + "x";
    ActiveSelectedAssigned(re, prev, text1, "x");
    ActiveSelectedAssigned(re, prev, text2, "x");
  }

  /** After `active:selected:x` a triple is admitted exactly when it is active, selected and its name starts with `x`. */
  lemma ActiveSelectedAdmits(f: Filter, prev: FilterState, text: string, x: string, name: string, active: bool, selected: bool)
    requires TreatsLiteralsLiterally(f.re) && Literal(x) && ':' !in x
    requires text == "active" + ":" + "selected" + ":" + x
    requires f.State() == Assign(f.re, prev, Some(text)).state
    ensures Assign(f.re, prev, Some(text)).ok
    ensures f.Admits(name, Some(active), Some(selected)) <==>
      active && selected && |x| <= |name| && name[..|x|] == x
  {
    ActiveSelectedAssigned(f.re, prev, text, x);
    AdmitsIff(f, name, Some(active), Some(selected));
    LiteralMatchIsPrefix(f.re, x, name);
  }

  /**
   * `active:selected:do_` admits exactly the active, selected functions whose
   * names start with `do_`.
   */
  lemma ActiveSelectedExample(f: Filter, prev: FilterState, text: string, name: string, active: bool, selected: bool)
    requires text == "active:selected:do_"
    requires TreatsLiteralsLiterally(f.re)
    requires f.State() == Assign(f.re, prev, Some(text)).state
    ensures Assign(f.re, prev, Some(text)).ok
    ensures f.Admits(name, Some(active), Some(selected)) <==>
      active && selected && |name| >= 3 && name[..3] == "do_"
  {
    ActiveSelectedDoPieces(text);
    ActiveSelectedAdmits(f, prev, text, "do_", name, active, selected);
  }

  /** `active:selected:do_` is built from two op words and the literal, colon-free pattern `do_`. */
  lemma ActiveSelectedDoPieces(text: string)
    requires text == "active:selected:do_"
    ensures Literal("do_") && ':' !in "do_"
    ensures text == "active" + ":" + "selected" + ":" + "do_"
  {
  }

  /** `nopped:main` sets the status test to nopped, no selection test, and the pattern `main`. */
  lemma NoppedMainAssigned(re: RegexEngine, prev: FilterState, text: string)
    requires text == "nopped:main"
    requires TreatsLiteralsLiterally(re)
    ensures Assign(re, prev, Some(text)) == Assignment(FilterState(Some(Nopped), None, Some("main")), true)
  {
    assert text == "nopped" + ":" + "main";
    SplitsIntoTwo(text, "nopped", "main");
    assert Literal("main");
    assert IsStatusWord("nopped") && !IsSelectionWord("nopped");
    assert "active" !in ["nopped"] && "selected" !in ["nopped"] && "unselected" !in ["nopped"];
  }

  /** `nopped:main` admits the nopped functions whose names start with `main`, whatever the selection. */
  lemma NoppedMainExample(f: Filter, prev: FilterState, text: string, name: string, active: bool, selected: Option<bool>)
    requires text == "nopped:main"
    requires TreatsLiteralsLiterally(f.re)
    requires f.State() == Assign(f.re, prev, Some(text)).state
    ensures Assign(f.re, prev, Some(text)).ok
    ensures f.Admits(name, Some(active), selected) <==> !active && |name| >= 4 && name[..4] == "main"
  {
    NoppedMainAssigned(f.re, prev, text);
    AdmitsIff(f, name, Some(active), selected);
    assert Literal("main");
    LiteralMatchIsPrefix(f.re, "main", name);
  }
}

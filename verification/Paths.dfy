/**
  Virtual paths of internal/handlers.go: filepath.Clean, defined on the elements between the
  slashes, and the resolution of a path to one of the user's mappings.
  */
module Paths {
  import opened Wrappers
  import opened Strings
  import opened ConfigModel

  const SEP: char := '/'
  const DOT := "."
  const UP := ".."

  // ---------------------------------------------------------------- cleaning

  predicate Rooted(path: string) {
    |path| > 0 && path[0] == SEP
  }

  function Last<T>(s: seq<T>): T
    requires |s| > 0
  {
    s[|s| - 1]
  }

  /** The elements kept so far, after one more element of the path. */
  function Push(rooted: bool, kept: seq<string>, e: string): seq<string> {
    if e == "" || e == DOT then kept
    else if e != UP then kept + [e]
    else if |kept| > 0 && Last(kept) != UP then kept[..|kept| - 1]
    else if rooted then kept
    else kept + [UP]
  }

  function PushAll(rooted: bool, kept: seq<string>, es: seq<string>): seq<string>
    decreases |es|
  {
    if |es| == 0 then kept else PushAll(rooted, Push(rooted, kept, es[0]), es[1..])
  }

  /** The elements of the cleaned path. */
  function Elements(path: string): seq<string> {
    PushAll(Rooted(path), [], Split(path, SEP))
  }

  function Written(rooted: bool, es: seq<string>): string {
    if rooted then [SEP] + Join(es, SEP) else if |es| == 0 then DOT else Join(es, SEP)
  }

  function Clean(path: string): string {
    Written(Rooted(path), Elements(path))
  }

  predicate Plain(e: string) {
    e != "" && e != DOT && e != UP && Free(e, SEP)
  }

  /** Plain elements, after some leading ".." if the path is not rooted. */
  predicate Normal(rooted: bool, es: seq<string>) {
    forall i :: 0 <= i < |es| ==>
      Plain(es[i]) || (es[i] == UP && !rooted && forall j :: 0 <= j <= i ==> es[j] == UP)
  }

  predicate AllFree(es: seq<string>) {
    forall e :: e in es ==> Free(e, SEP)
  }

  lemma {:induction false} PushAllNormal(rooted: bool, kept: seq<string>, es: seq<string>)
    requires Normal(rooted, kept) && AllFree(es)
    ensures Normal(rooted, PushAll(rooted, kept, es))
    decreases |es|
  {
    if |es| > 0 {
      assert Free(es[0], SEP);
      PushAllNormal(rooted, Push(rooted, kept, es[0]), es[1..]);
    }
  }

  lemma ElementsNormal(path: string)
    ensures Normal(Rooted(path), Elements(path))
  {
    PushAllNormal(Rooted(path), [], Split(path, SEP));
  }

  lemma {:induction false} PushAllAppend(rooted: bool, kept: seq<string>, a: seq<string>, b: seq<string>)
    ensures PushAll(rooted, kept, a + b) == PushAll(rooted, PushAll(rooted, kept, a), b)
    decreases |a|
  {
    if |a| == 0 {
      assert a + b == b;
    } else {
      assert (a + b)[1..] == a[1..] + b;
      PushAllAppend(rooted, Push(rooted, kept, a[0]), a[1..], b);
    }
  }

  /** Elements in normal form are all kept. */
  lemma {:induction false} PushAllKeeps(rooted: bool, kept: seq<string>, es: seq<string>)
    requires Normal(rooted, kept + es)
    ensures PushAll(rooted, kept, es) == kept + es
    decreases |es|
  {
    if |es| > 0 {
      assert (kept + es)[|kept|] == es[0];
      assert |kept| > 0 ==> (kept + es)[|kept| - 1] == Last(kept);
      assert kept + [es[0]] + es[1..] == kept + es;
      PushAllKeeps(rooted, kept + [es[0]], es[1..]);
    } else {
      assert kept + es == kept;
    }
  }

  /**
    The documented rules of filepath.Clean, each of which rewrites the path without changing the
    result: an empty or "." element goes, an inner ".." goes with the element before it, and a ".."
    that begins a rooted path goes.
    */
  lemma CleaningRules(rooted: bool, a: seq<string>, e: string, b: seq<string>)
    ensures PushAll(rooted, [], a + [""] + b) == PushAll(rooted, [], a + b)
    ensures PushAll(rooted, [], a + [DOT] + b) == PushAll(rooted, [], a + b)
    ensures Plain(e) ==> PushAll(rooted, [], a + [e, UP] + b) == PushAll(rooted, [], a + b)
    ensures PushAll(true, [], [UP] + b) == PushAll(true, [], b)
  {
    var kept := PushAll(rooted, [], a);
    PushAllAppend(rooted, [], a, b);
    PushAllAppend(rooted, [], a + [""], b);
    PushAllAppend(rooted, [], a, [""]);
    PushAllAppend(rooted, [], a + [DOT], b);
    PushAllAppend(rooted, [], a, [DOT]);
    PushAllAppend(rooted, [], a + [e, UP], b);
    PushAllAppend(rooted, [], a, [e, UP]);
    assert PushAll(rooted, kept, [""]) == Push(rooted, kept, "");
    assert PushAll(rooted, kept, [DOT]) == Push(rooted, kept, DOT);
    if Plain(e) {
      assert [e, UP][1..] == [UP];
      assert PushAll(rooted, kept, [e, UP]) == PushAll(rooted, kept + [e], [UP]);
      assert PushAll(rooted, kept + [e], [UP]) == Push(rooted, kept + [e], UP);
      assert (kept + [e])[..|kept|] == kept;
    }
    assert ([UP] + b)[1..] == b;
  }

  /** A cleaned path has the elements it was written with. */
  lemma WrittenElements(rooted: bool, es: seq<string>)
    requires Normal(rooted, es)
    ensures Rooted(Written(rooted, es)) == rooted && Elements(Written(rooted, es)) == es
  {
    var path := Written(rooted, es);
    if |es| > 0 {
      SplitJoin(es, SEP);
      FirstChar(es);
    }
    if rooted {
      assert path == "" + [SEP] + Join(es, SEP);
      SplitPiece("", Join(es, SEP), SEP);
      assert ([""] + Split(Join(es, SEP), SEP))[1..] == Split(Join(es, SEP), SEP);
    }
    if |es| == 0 {
      SplitPiece(DOT, "", SEP);
      SplitPiece("", "", SEP);
      assert rooted ==> Split(path, SEP) == ["", ""] && ["", ""][1..] == [""];
      assert PushAll(rooted, [], if rooted then ["", ""] else [DOT]) == [];
    } else {
      assert [] + es == es;
      PushAllKeeps(rooted, [], es);
    }
  }

  lemma FirstChar(es: seq<string>)
    requires |es| > 0 && Free(es[0], SEP) && es[0] != ""
    ensures Join(es, SEP) != "" && Join(es, SEP)[0] == es[0][0] != SEP
  {
  }

  /** Cleaning a cleaned path changes nothing. */
  lemma CleanIdempotent(path: string)
    ensures Clean(Clean(path)) == Clean(path)
  {
    ElementsNormal(path);
    WrittenElements(Rooted(path), Elements(path));
  }

  /** filepath.Base: the last element that is not empty. */
  function Base(path: string): string {
    if path == "" then DOT else LastNonEmpty(Split(path, SEP))
  }

  function LastNonEmpty(es: seq<string>): string {
    if |es| == 0 then [SEP]
    else if Last(es) != "" then Last(es)
    else LastNonEmpty(es[..|es| - 1])
  }

  /** The name that a path ends in, whatever stands before it and however many slashes after it. */
  lemma BaseIsName(dir: string, name: string)
    requires name != "" && Free(name, SEP)
    ensures Base(name) == name && Base(dir + [SEP] + name) == name
    ensures Base(dir + [SEP] + name + [SEP]) == name
  {
    var es := Split(dir, SEP);
    SplitPiece(name, "", SEP);
    SplitPiece("", "", SEP);
    SplitAfter(dir, name, SEP);
    assert Last(es + [name]) == name;
    assert dir + [SEP] + name + [SEP] == dir + [SEP] + (name + [SEP] + "");
    SplitAfter(dir, name + [SEP] + "", SEP);
    var ps := es + [name, ""];
    assert ps == es + ([name] + [""]) && Last(ps) == "" && ps[..|ps| - 1] == es + [name];
  }

  lemma {:induction false} SplitAfter(a: string, b: string, sep: char)
    ensures Split(a + [sep] + b, sep) == Split(a, sep) + Split(b, sep)
  {
    if a == "" {
      SplitPiece("", b, sep);
      SplitPiece("", "", sep);
    } else {
      assert (a + [sep] + b)[1..] == a[1..] + [sep] + b;
      SplitAfter(a[1..], b, sep);
    }
  }

  // ---------------------------------------------------------------- resolving

  /** strings.SplitN(s, "/", 2): the part before the first slash, and the rest if there is a slash. */
  function Cut(s: string): (parts: (string, Option<string>)) {
    if s == "" then (s, None)
    else if s[0] == SEP then ("", Some(s[1..]))
    else
      var (first, rest) := Cut(s[1..]);
      ([s[0]] + first, rest)
  }

  lemma {:induction false} CutPiece(p: string, s: string)
    requires Free(p, SEP)
    ensures Cut(p) == (p, None) && Cut(p + [SEP] + s) == (p, Some(s))
  {
    if p == "" {
      assert p + [SEP] + s == [SEP] + s;
      assert ([SEP] + s)[1..] == s;
    } else {
      CutPiece(p[1..], s);
      assert (p + [SEP] + s)[1..] == p[1..] + [SEP] + s;
      assert p == [p[0]] + p[1..];
    }
  }

  function TrimSlash(s: string): string {
    if Rooted(s) then s[1..] else s
  }

  datatype Resolution =
    | Denied                          // os.ErrPermission
    | Missing                         // os.ErrNotExist
    | Top                             // the virtual root, which is no mapping
    | At(alias: string, rel: string)  // a mapping and the path inside it

  function Resolve(m: map<string, MapEntry>, path: string): Resolution {
    if '~' in path then Denied
    else
      var (alias, rest) := Cut(TrimSlash(Clean(path)));
      if alias == "" then Top
      else if alias !in m then Missing
      else if m[alias].mode == Exec then At(alias, "")
      else At(alias, if rest.Some? && rest.value != "" then rest.value else DOT)
  }

  /** What resolution does in terms of the elements of the cleaned path. */
  lemma ResolveElements(m: map<string, MapEntry>, path: string)
    requires '~' !in path
    ensures var es := Elements(path);
            Resolve(m, path) ==
            if |es| == 0 && Rooted(path) then Top
            else
              var alias := if |es| == 0 then DOT else es[0];
              if alias !in m then Missing
              else if m[alias].mode == Exec then At(alias, "")
              else At(alias, if |es| > 1 then Join(es[1..], SEP) else DOT)
  {
    var es := Elements(path);
    ElementsNormal(path);
    if |es| == 0 {
      CutPiece(if Rooted(path) then "" else DOT, "");
    } else {
      FirstChar(es);
      assert TrimSlash(Clean(path)) == Join(es, SEP);
      CutPiece(es[0], Join(es[1..], SEP));
      if |es| > 1 {
        LaterElements(Rooted(path), es);
      }
    }
  }

  lemma LaterElements(rooted: bool, es: seq<string>)
    requires Normal(rooted, es) && |es| > 1
    ensures Join(es[1..], SEP) != ""
  {
    FirstChar(es[1..]);
  }

  /** The path inside a mapping has normal elements: ".." is found in front only. */
  lemma ResolveNormal(m: map<string, MapEntry>, path: string)
    requires Resolve(m, path).At? && m[Resolve(m, path).alias].mode != Exec
    ensures var rel := Resolve(m, path).rel; rel == DOT || Normal(false, Split(rel, SEP))
  {
    ResolveElements(m, path);
    ElementsNormal(path);
    var es := Elements(path);
    if |es| > 1 {
      assert forall i :: 0 <= i < |es| - 1 ==> es[1..][i] == es[i + 1];
      SplitJoin(es[1..], SEP);
    }
  }

  /** The path inside a mapping is "." or plain elements joined by slashes. */
  predicate Confined(rel: string) {
    rel == DOT || forall e :: e in Split(rel, SEP) ==> Plain(e)
  }

  predicate ConfinedResolution(m: map<string, MapEntry>, r: Resolution) {
    r.At? && r.alias in m && m[r.alias].mode != Exec ==> Confined(r.rel)
  }

  /** Resolution stays inside the mapping, for every path unless it is relative and goes up to an alias "..". */
  lemma ResolveConfined(m: map<string, MapEntry>, path: string)
    ensures var r := Resolve(m, path);
            (r.At? && r.alias == UP && !Rooted(path)) || ConfinedResolution(m, r)
  {
    var r := Resolve(m, path);
    if r.At? && m[r.alias].mode != Exec && !(r.alias == UP && !Rooted(path)) {
      ResolveElements(m, path);
      ElementsNormal(path);
      var es := Elements(path);
      if |es| > 1 {
        assert Plain(es[0]);
        assert forall e :: e in es[1..] ==> Plain(e);
        SplitJoin(es[1..], SEP);
      }
    }
  }

  /** All paths resolve to a confined one exactly if the user has no usable alias "..". */
  lemma ConfinedExactly(m: map<string, MapEntry>)
    ensures (forall path :: ConfinedResolution(m, Resolve(m, path))) <==> !(UP in m && m[UP].mode != Exec)
  {
    if UP in m && m[UP].mode != Exec {
      var es := [UP, UP];
      WrittenElements(false, es);
      assert es[1..] == [UP] && Join(es, SEP) == UP + [SEP] + UP == "../..";
      ResolveElements(m, "../..");
      assert es[1..] == [UP];
      assert Resolve(m, "../..") == At(UP, UP);
      SplitPiece(UP, "", SEP);
      assert UP in Split(UP, SEP);
      assert !ConfinedResolution(m, Resolve(m, "../.."));
    } else {
      forall path
        ensures ConfinedResolution(m, Resolve(m, path))
      {
        ResolveConfined(m, path);
      }
    }
  }

  function VirtualPath(alias: string, rel: string): string {
    [SEP] + alias + [SEP] + rel
  }

  /** The path that names an alias and a confined path inside it resolves to exactly these. */
  lemma ResolveVirtualPath(m: map<string, MapEntry>, alias: string, rel: string)
    requires alias in m && m[alias].mode != Exec && Plain(alias) && Confined(rel)
    requires '~' !in alias && '~' !in rel
    ensures Resolve(m, VirtualPath(alias, rel)) == At(alias, rel)
  {
    var path := VirtualPath(alias, rel);
    VirtualElements(alias, rel);
    if rel == DOT {
      assert Elements(path) == [alias];
    } else {
      JoinSplit(rel, SEP);
      assert ([alias] + Split(rel, SEP))[1..] == Split(rel, SEP);
    }
    ResolveElements(m, path);
  }

  lemma VirtualElements(alias: string, rel: string)
    requires Plain(alias) && Confined(rel)
    ensures Elements(VirtualPath(alias, rel)) == [alias] + if rel == DOT then [] else Split(rel, SEP)
  {
    VirtualPieces(alias, rel);
    var es := [alias] + Split(rel, SEP);
    LeadingEmpty(es);
    if rel == DOT {
      TrailingDot(alias);
    } else {
      AllPlain(es);
    }
  }

  lemma VirtualPieces(alias: string, rel: string)
    requires Plain(alias)
    ensures Elements(VirtualPath(alias, rel)) == PushAll(true, [], [""] + ([alias] + Split(rel, SEP)))
  {
    var path := VirtualPath(alias, rel);
    assert path == "" + [SEP] + (alias + [SEP] + rel);
    SplitPiece("", alias + [SEP] + rel, SEP);
    SplitPiece(alias, rel, SEP);
    assert Split(path, SEP) == [""] + ([alias] + Split(rel, SEP));
  }

  lemma AllPlain(es: seq<string>)
    requires forall e :: e in es ==> Plain(e)
    ensures PushAll(true, [], es) == es
  {
    assert [] + es == es;
    PushAllKeeps(true, [], es);
  }

  lemma LeadingEmpty(es: seq<string>)
    ensures PushAll(true, [], [""] + es) == PushAll(true, [], es)
  {
    assert ([""] + es)[1..] == es;
  }

  lemma TrailingDot(alias: string)
    requires Plain(alias)
    ensures PushAll(true, [], [alias] + Split(DOT, SEP)) == [alias]
  {
    SplitPiece(DOT, "", SEP);
    assert ([alias] + [DOT])[1..] == [DOT] && [DOT][1..] == [] && [] + [alias] == [alias];
    assert PushAll(true, [alias], [DOT]) == PushAll(true, [alias], []);
  }

  /** A rooted path resolves to a plain alias. */
  lemma RootedAlias(m: map<string, MapEntry>, path: string)
    ensures Rooted(path) && Resolve(m, path).At? ==> Plain(Resolve(m, path).alias)
  {
    if '~' !in path {
      ResolveElements(m, path);
      ElementsNormal(path);
    }
  }

  /** A resolution can be asked for again by its own names, unless a relative path led to an alias "." or "..". */
  lemma ResolveAgain(m: map<string, MapEntry>, path: string)
    requires Resolve(m, path).At? && m[Resolve(m, path).alias].mode != Exec
    ensures var r := Resolve(m, path);
            Resolve(m, VirtualPath(r.alias, r.rel)) == r <==> r.alias != DOT && r.alias != UP
  {
    var r := Resolve(m, path);
    RootedAlias(m, VirtualPath(r.alias, r.rel));
    if r.alias != DOT && r.alias != UP {
      ResolveConfined(m, path);
      ResolveElements(m, path);
      ElementsNormal(path);
      NoTilde(path);
      var es := Elements(path);
      assert Plain(es[0]) && '~' !in es[0];
      if |es| > 1 {
        JoinChars(es[1..], SEP, '~');
      }
      ResolveVirtualPath(m, r.alias, r.rel);
    }
  }

  lemma NoTilde(path: string)
    requires '~' !in path
    ensures forall e :: e in Elements(path) ==> '~' !in e
  {
    JoinSplit(path, SEP);
    JoinChars(Split(path, SEP), SEP, '~');
    PushAllFrom(Rooted(path), [], Split(path, SEP));
  }

  lemma {:induction false} PushAllFrom(rooted: bool, kept: seq<string>, es: seq<string>)
    ensures forall e :: e in PushAll(rooted, kept, es) ==> e in kept || e in es || e == UP
    decreases |es|
  {
    if |es| > 0 {
      PushAllFrom(rooted, Push(rooted, kept, es[0]), es[1..]);
    }
  }
}

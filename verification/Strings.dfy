/** Splitting and joining at a separator, as strings.Split and strings.Join do. */
module Strings {

  /** `p` has no occurrence of `sep`. */
  predicate Free(p: string, sep: char) {
    sep !in p
  }

  /** The pieces of `s` between the separators; a string without separators is one piece. */
  function Split(s: string, sep: char): (ps: seq<string>)
    ensures |ps| >= 1
    ensures forall p :: p in ps ==> Free(p, sep)
  {
    if s == "" then
      [""]
    else
      var rest := Split(s[1..], sep);
      assert Free(rest[0], sep);
      if s[0] == sep then [""] + rest else [[s[0]] + rest[0]] + rest[1..]
  }

  function Join(ps: seq<string>, sep: char): string {
    if |ps| == 0 then ""
    else if |ps| == 1 then ps[0]
    else ps[0] + [sep] + Join(ps[1..], sep)
  }

  lemma {:induction false} JoinSplit(s: string, sep: char)
    ensures Join(Split(s, sep), sep) == s
  {
    if s != "" {
      JoinSplit(s[1..], sep);
      var rest := Split(s[1..], sep);
      if s[0] == sep {
        assert ([""] + rest)[1..] == rest;
      } else {
        var ps := [[s[0]] + rest[0]] + rest[1..];
        assert ps[1..] == rest[1..];
        if |rest| > 1 {
          assert Join(ps, sep) == [s[0]] + Join(rest, sep);
        }
      }
    }
  }

  /** A piece without separators is split off whole. */
  lemma {:induction false} SplitPiece(p: string, s: string, sep: char)
    requires Free(p, sep)
    ensures Split(p, sep) == [p]
    ensures Split(p + [sep] + s, sep) == [p] + Split(s, sep)
  {
    if p == "" {
      assert p + [sep] + s == [sep] + s;
      assert ([sep] + s)[1..] == s;
    } else {
      SplitPiece(p[1..], s, sep);
      assert (p + [sep] + s)[1..] == p[1..] + [sep] + s;
      assert p == [p[0]] + p[1..];
    }
  }

  lemma {:induction false} SplitJoin(ps: seq<string>, sep: char)
    requires |ps| >= 1
    requires forall p :: p in ps ==> Free(p, sep)
    ensures Split(Join(ps, sep), sep) == ps
  {
    SplitPiece(ps[0], Join(ps[1..], sep), sep);
    if |ps| > 1 {
      SplitJoin(ps[1..], sep);
    }
  }

  /** Joining adds exactly the separators: a character of the result is one of them or in a piece. */
  lemma {:induction false} JoinChars(ps: seq<string>, sep: char, c: char)
    requires c != sep
    ensures c in Join(ps, sep) <==> exists p :: p in ps && c in p
  {
    if |ps| > 1 {
      JoinChars(ps[1..], sep, c);
      assert ps == [ps[0]] + ps[1..];
    }
  }
}

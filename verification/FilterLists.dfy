/** Lists of networks: parsing them, merging a group's into a user's, and the verdict on an address. */
module FilterLists {
  import opened Wrappers
  import opened Strings
  import opened IpFilter

  /** Reading one entry: white space, addresses and prefix notation are the Go library's. */
  datatype EntryParser = EntryParser(
    trim: string -> string,
    address: string -> Option<Address>,
    cidr: string -> Option<IPNet>)
  {
    ghost predicate Lawful() {
      && (forall s: string :: address(s).Some? ==> ValidAddress(address(s).value))
      && (forall s: string :: cidr(s).Some? ==> cidr(s).value.Valid())
    }
  }

  /** The /32 or /128 network that a bare address is rewritten to. */
  function HostNet(ip: Address): IPNet {
    if Is4(ip) then IPNet(true, V4Part(ip), 32) else IPNet(false, ip, 128)
  }

  lemma HostNetHoldsOnly(ip: Address, other: Address)
    requires ValidAddress(ip)
    ensures HostNet(ip).Valid()
    ensures HostNet(ip).Contains(other) <==> other == ip
  {
    Pow2Of32();
    assert HostNet(ip).Size() == 1;
    ContainsIsBlock(HostNet(ip), other);
  }

  function ParsedEntry(p: EntryParser, raw: string): Option<IPNet> {
    var s := p.trim(raw);
    if s == "" then
      None
    else if '/' !in s then
      match p.address(s)
      case None => None
      case Some(ip) => Some(HostNet(ip))
    else
      p.cidr(s)
  }

  function ParsedPieces(p: EntryParser, pieces: seq<string>): seq<IPNet> {
    if |pieces| == 0 then
      []
    else
      ParsedPieces(p, pieces[..|pieces| - 1]) +
      match ParsedEntry(p, pieces[|pieces| - 1])
      case None => []
      case Some(n) => [n]
  }

  function Parsed(p: EntryParser, list: string): seq<IPNet> {
    if list == "" then [] else ParsedPieces(p, Split(list, ','))
  }

  /** Entries that do not parse are skipped, the others keep their order. */
  method ParseIPNetList(p: EntryParser, list: string) returns (out: seq<IPNet>)
    ensures out == Parsed(p, list)
  {
    out := [];
    if list == "" {
      return;
    }
    var pieces := Split(list, ',');
    for i := 0 to |pieces|
      invariant out == ParsedPieces(p, pieces[..i])
    {
      assert pieces[..i + 1][..i] == pieces[..i];
      var s := p.trim(pieces[i]);
      if s == "" {
        continue;
      }
      var net: Option<IPNet>;
      if '/' !in s {
        var ip := p.address(s);
        if ip.None? {
          continue;
        }
        net := Some(HostNet(ip.value));
      } else {
        net := p.cidr(s);
        if net.None? {
          continue;
        }
      }
      out := out + [net.value];
    }
    assert pieces[..|pieces|] == pieces;
  }

  predicate AnyContains(nets: seq<IPNet>, ip: Address) {
    exists i :: 0 <= i < |nets| && nets[i].Contains(ip)
  }

  ghost predicate AllValid(nets: seq<IPNet>) {
    forall i :: 0 <= i < |nets| ==> nets[i].Valid()
  }

  /** What one written entry stands for: a bare address for itself, a prefix for its block. */
  ghost predicate EntryAccepts(p: EntryParser, raw: string, ip: Address) {
    var s := p.trim(raw);
    s != "" &&
    if '/' in s then p.cidr(s).Some? && p.cidr(s).value.Contains(ip) else p.address(s) == Some(ip)
  }

  ghost predicate SomeEntryAccepts(p: EntryParser, pieces: seq<string>, ip: Address) {
    exists i :: 0 <= i < |pieces| && EntryAccepts(p, pieces[i], ip)
  }

  /** A parsed list accepts an address exactly when one of the written entries stands for it. */
  lemma ParsedAccepts(p: EntryParser, list: string, ip: Address)
    requires p.Lawful()
    ensures AllValid(Parsed(p, list))
    ensures AnyContains(Parsed(p, list), ip) <==>
            list != "" && SomeEntryAccepts(p, Split(list, ','), ip)
  {
    if list != "" {
      PiecesAccept(p, Split(list, ','), ip);
    }
  }

  lemma EntryVerdict(p: EntryParser, raw: string, ip: Address)
    requires p.Lawful()
    ensures EntryAccepts(p, raw, ip) <==>
            ParsedEntry(p, raw).Some? && ParsedEntry(p, raw).value.Contains(ip)
    ensures ParsedEntry(p, raw).Some? ==> ParsedEntry(p, raw).value.Valid()
  {
    var s := p.trim(raw);
    if p.address(s).Some? {
      HostNetHoldsOnly(p.address(s).value, ip);
    }
  }

  lemma {:induction false} PiecesAccept(p: EntryParser, pieces: seq<string>, ip: Address)
    requires p.Lawful()
    ensures AllValid(ParsedPieces(p, pieces))
    ensures AnyContains(ParsedPieces(p, pieces), ip) <==> SomeEntryAccepts(p, pieces, ip)
  {
    if |pieces| > 0 {
      var init, last := pieces[..|pieces| - 1], pieces[|pieces| - 1];
      PiecesAccept(p, init, ip);
      EntryVerdict(p, last, ip);
      var tail := match ParsedEntry(p, last) case None => [] case Some(n) => [n];
      if EntryAccepts(p, last, ip) {
        assert tail[0].Contains(ip);
      }
      AnyContainsConcat(ParsedPieces(p, init), tail, ip);
      if SomeEntryAccepts(p, init, ip) {
        var i :| 0 <= i < |init| && EntryAccepts(p, init[i], ip);
        assert EntryAccepts(p, pieces[i], ip);
      }
    }
  }

  lemma AnyContainsConcat(a: seq<IPNet>, b: seq<IPNet>, ip: Address)
    ensures AnyContains(a + b, ip) <==> AnyContains(a, ip) || AnyContains(b, ip)
  {
    if AnyContains(a, ip) {
      var i :| 0 <= i < |a| && a[i].Contains(ip);
      assert (a + b)[i].Contains(ip);
    }
    if AnyContains(b, ip) {
      var i :| 0 <= i < |b| && b[i].Contains(ip);
      assert (a + b)[|a| + i].Contains(ip);
    }
  }

  // ---------------------------------------------------------------- merging

  /** `n` prints the same text as a network of the list. */
  predicate Printed(nets: seq<IPNet>, n: IPNet) {
    exists i :: 0 <= i < |nets| && nets[i].Canonical() == n.Canonical()
  }

  function MergeOne(dst: seq<IPNet>, n: IPNet): seq<IPNet> {
    if Printed(dst, n) then dst else dst + [n]
  }

  function Merged(dst: seq<IPNet>, src: seq<IPNet>): seq<IPNet> {
    if |src| == 0 then dst else MergeOne(Merged(dst, src[..|src| - 1]), src[|src| - 1])
  }

  /** Appends the networks of `src` whose text is not in the list yet. */
  method MergeIPNetLists(dst: seq<IPNet>, src: seq<IPNet>) returns (out: seq<IPNet>)
    ensures out == Merged(dst, src)
  {
    out := dst;
    for i := 0 to |src|
      invariant out == Merged(dst, src[..i])
    {
      assert src[..i + 1][..i] == src[..i];
      var duplicate := false;
      for j := 0 to |out|
        invariant !duplicate
        invariant forall k :: 0 <= k < j ==> out[k].Canonical() != src[i].Canonical()
      {
        if src[i].Canonical() == out[j].Canonical() {
          duplicate := true;
          break;
        }
      }
      if !duplicate {
        out := out + [src[i]];
      }
    }
    assert src[..|src|] == src;
  }

  ghost predicate NoDuplicates(nets: seq<IPNet>) {
    forall i, j :: 0 <= i < j < |nets| ==> nets[i].Canonical() != nets[j].Canonical()
  }

  /**
    The merged list starts with the old one, adds no text twice, takes nothing from elsewhere and
    leaves nothing of either list out.
    */
  lemma {:induction false} MergedContents(dst: seq<IPNet>, src: seq<IPNet>)
    ensures dst <= Merged(dst, src)
    ensures forall n :: n in Merged(dst, src) ==> n in dst || n in src
    ensures forall n :: n in dst || n in src ==> Printed(Merged(dst, src), n)
    ensures NoDuplicates(dst) ==> NoDuplicates(Merged(dst, src))
    ensures forall n :: n in Merged(dst, src)[|dst|..] ==> !Printed(dst, n)
  {
    if |src| == 0 {
      assert forall n :: n in dst ==> exists i :: 0 <= i < |dst| && dst[i] == n;
    } else {
      var init, last := src[..|src| - 1], src[|src| - 1];
      assert src == init + [last];
      MergedContents(dst, init);
      var before, after := Merged(dst, init), Merged(dst, src);
      assert before <= after;
      if !Printed(before, last) {
        assert after[|dst|..] == before[|dst|..] + [last];
        assert after[|before|] == last;
        if Printed(dst, last) {
          PrintedInPrefix(dst, before, last);
        }
      }
      forall n | n in dst || n in src
        ensures Printed(after, n)
      {
        if n != last {
          var i :| 0 <= i < |before| && before[i].Canonical() == n.Canonical();
          assert after[i] == before[i];
        }
      }
    }
  }

  lemma PrintedInPrefix(a: seq<IPNet>, b: seq<IPNet>, n: IPNet)
    requires a <= b && Printed(a, n)
    ensures Printed(b, n)
  {
    var i :| 0 <= i < |a| && a[i].Canonical() == n.Canonical();
    assert b[i] == a[i];
  }

  /** Merging accepts exactly the addresses of either list, and is empty only if both are. */
  lemma MergedAccepts(dst: seq<IPNet>, src: seq<IPNet>, ip: Address)
    requires AllValid(dst) && AllValid(src)
    ensures AllValid(Merged(dst, src))
    ensures AnyContains(Merged(dst, src), ip) <==> AnyContains(dst, ip) || AnyContains(src, ip)
    ensures |Merged(dst, src)| == 0 <==> |dst| == 0 && |src| == 0
  {
    MergedContents(dst, src);
    var m := Merged(dst, src);
    if AnyContains(m, ip) {
      var i :| 0 <= i < |m| && m[i].Contains(ip);
      assert m[i] in dst || m[i] in src;
    }
    forall n | (n in dst || n in src) && n.Contains(ip)
      ensures AnyContains(m, ip)
    {
      var i :| 0 <= i < |m| && m[i].Canonical() == n.Canonical();
      CanonicalValid(n);
      assert m[i].Contains(ip);
    }
    if |src| > 0 {
      assert src[0] in src;
    }
  }

  /** A user's list after the lists of the user's groups were merged into it one after another. */
  function MergedAll(dst: seq<IPNet>, groups: seq<seq<IPNet>>): seq<IPNet> {
    if |groups| == 0 then dst
    else Merged(MergedAll(dst, groups[..|groups| - 1]), groups[|groups| - 1])
  }

  ghost predicate AnyGroup(groups: seq<seq<IPNet>>, ip: Address) {
    exists g :: g in groups && AnyContains(g, ip)
  }

  lemma {:induction false} MergedAllAccepts(dst: seq<IPNet>, groups: seq<seq<IPNet>>, ip: Address)
    requires AllValid(dst) && forall g :: g in groups ==> AllValid(g)
    ensures AllValid(MergedAll(dst, groups))
    ensures AnyContains(MergedAll(dst, groups), ip) <==> AnyContains(dst, ip) || AnyGroup(groups, ip)
    ensures |MergedAll(dst, groups)| == 0 <==> |dst| == 0 && forall g :: g in groups ==> |g| == 0
  {
    if |groups| > 0 {
      var init, last := groups[..|groups| - 1], groups[|groups| - 1];
      assert groups == init + [last];
      MergedAllAccepts(dst, init, ip);
      MergedAccepts(MergedAll(dst, init), last, ip);
    }
  }

  // ---------------------------------------------------------------- the verdict

  /** User.Allowed and isIPAllowed: the blacklist first, then the whitelist unless it is empty. */
  method Allowed(whitelist: seq<IPNet>, blacklist: seq<IPNet>, ip: Address) returns (ok: bool)
    ensures ok == Verdict(whitelist, blacklist, ip)
  {
    for i := 0 to |blacklist|
      invariant forall k :: 0 <= k < i ==> !blacklist[k].Contains(ip)
    {
      if blacklist[i].Contains(ip) {
        return false;
      }
    }
    if |whitelist| == 0 {
      return true;
    }
    for i := 0 to |whitelist|
      invariant forall k :: 0 <= k < i ==> !whitelist[k].Contains(ip)
    {
      if whitelist[i].Contains(ip) {
        return true;
      }
    }
    return false;
  }

  predicate Verdict(whitelist: seq<IPNet>, blacklist: seq<IPNet>, ip: Address) {
    !AnyContains(blacklist, ip) && (|whitelist| == 0 || AnyContains(whitelist, ip))
  }

  /**
    The verdict on the merged lists in terms of what the user and the groups wrote: in no blacklist,
    and in some whitelist unless every whitelist is empty.
    */
  lemma MergedVerdict(white: seq<IPNet>, whites: seq<seq<IPNet>>,
                      black: seq<IPNet>, blacks: seq<seq<IPNet>>, ip: Address)
    requires AllValid(white) && AllValid(black)
    requires forall g :: g in whites || g in blacks ==> AllValid(g)
    ensures Verdict(MergedAll(white, whites), MergedAll(black, blacks), ip) <==>
            && !AnyContains(black, ip) && !AnyGroup(blacks, ip)
            && ((|white| == 0 && forall g :: g in whites ==> |g| == 0)
                || AnyContains(white, ip) || AnyGroup(whites, ip))
  {
    MergedAllAccepts(white, whites, ip);
    MergedAllAccepts(black, blacks, ip);
  }

  /** Neither the order of the groups nor naming one twice changes the verdict. */
  lemma VerdictIgnoresOrder(white: seq<IPNet>, whites: seq<seq<IPNet>>, whites': seq<seq<IPNet>>,
                            black: seq<IPNet>, blacks: seq<seq<IPNet>>, blacks': seq<seq<IPNet>>,
                            ip: Address)
    requires AllValid(white) && AllValid(black)
    requires forall g :: g in whites || g in blacks ==> AllValid(g)
    requires forall g :: g in whites <==> g in whites'
    requires forall g :: g in blacks <==> g in blacks'
    ensures Verdict(MergedAll(white, whites), MergedAll(black, blacks), ip)
         == Verdict(MergedAll(white, whites'), MergedAll(black, blacks'), ip)
  {
    MergedVerdict(white, whites, black, blacks, ip);
    MergedVerdict(white, whites', black, blacks', ip);
  }
}

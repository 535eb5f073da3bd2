/**
 From a request's host to the slug the subdomain resolver looks up. The parser
 compares label lists; the theorems say what that means for the strings.
 Labels are those of section 3.1 of RFC 1034.
 */
module HostParser {
  import opened Prelude

  // ---- Labels ----

  /** `s.split(".")`. */
  function Split(s: string): (labels: seq<string>)
    ensures |labels| >= 1
  {
    if s == "" then [""]
    else if s[0] == '.' then [""] + Split(s[1..])
    else
      var rest := Split(s[1..]);
      [[s[0]] + rest[0]] + rest[1..]
  }

  function Join(labels: seq<string>): string
    requires |labels| >= 1
  {
    if |labels| == 1 then labels[0] else labels[0] + "." + Join(labels[1..])
  }

  lemma {:induction false} JoinSplit(s: string)
    ensures Join(Split(s)) == s
  {
    if s != "" {
      JoinSplit(s[1..]);
      var rest := Split(s[1..]);
      if s[0] == '.' {
        assert Split(s)[1..] == rest;
        assert "" + "." + s[1..] == s;
      } else {
        var labels := Split(s);
        assert labels[1..] == rest[1..];
        if |rest| == 1 {
          assert [s[0]] + s[1..] == s;
        } else {
          assert labels[0] + "." + Join(rest[1..]) == [s[0]] + (rest[0] + "." + Join(rest[1..]));
          assert [s[0]] + s[1..] == s;
        }
      }
    }
  }

  lemma {:induction false} LabelsHaveNoDot(s: string)
    ensures forall part :: part in Split(s) ==> '.' !in part
  {
    if s != "" {
      LabelsHaveNoDot(s[1..]);
      var rest := Split(s[1..]);
      assert rest[0] in rest;
      assert forall part :: part in rest[1..] ==> part in rest;
    }
  }

  /** A label without a dot comes off whole. */
  lemma {:induction false} SplitFirst(head: string, tail: string)
    requires '.' !in head
    ensures Split(head + "." + tail) == [head] + Split(tail)
  {
    var s := head + "." + tail;
    if head == "" {
      assert s[1..] == tail;
    } else {
      assert s[0] == head[0] && s[0] in head;
      assert s[1..] == head[1..] + "." + tail;
      assert forall c :: c in head[1..] ==> c in head;
      SplitFirst(head[1..], tail);
      assert ([head[1..]] + Split(tail))[1..] == Split(tail);
      assert [s[0]] + head[1..] == head;
    }
  }

  /** The first label of a string, and the rest of it, both ways. */
  lemma FirstLabel(s: string, tail: string)
    ensures |Split(s)| > 1 && Split(s)[1..] == Split(tail) <==> exists head :: '.' !in head && s == head + "." + tail
    ensures |Split(s)| > 1 && Split(s)[1..] == Split(tail) ==> '.' !in Split(s)[0] && s == Split(s)[0] + "." + tail
  {
    JoinSplit(s);
    JoinSplit(tail);
    LabelsHaveNoDot(s);
    assert Split(s)[0] in Split(s);
    if head :| '.' !in head && s == head + "." + tail {
      SplitFirst(head, tail);
    }
  }

  lemma HeadIsUnique(head1: string, tail1: string, head2: string, tail2: string)
    requires '.' !in head1 && '.' !in head2 && head1 + "." + tail1 == head2 + "." + tail2
    ensures head1 == head2 && tail1 == tail2
  {
    SplitFirst(head1, tail1);
    SplitFirst(head2, tail2);
    JoinSplit(tail1);
    JoinSplit(tail2);
    assert ([head1] + Split(tail1))[1..] == Split(tail1);
    assert ([head2] + Split(tail2))[1..] == Split(tail2);
  }

  // ---- Normalisation ----

  function LowerChar(c: char): char {
    if 'A' <= c <= 'Z' then (c as int + 32) as char else c
  }

  /** `s.lower()` on the ASCII characters a host is made of. */
  function Lower(s: string): (r: string)
    ensures |r| == |s|
  {
    seq(|s|, i requires 0 <= i < |s| => LowerChar(s[i]))
  }

  /** `s.split(":")[0]`. */
  function BeforeColon(s: string): string {
    if s == "" || s[0] == ':' then "" else [s[0]] + BeforeColon(s[1..])
  }

  /** `s.rstrip(".")`. */
  function StripDots(s: string): string {
    if s != "" && s[|s| - 1] == '.' then StripDots(s[..|s| - 1]) else s
  }

  function Normal(host: string): string {
    Lower(StripDots(BeforeColon(host)))
  }

  predicate TwoDots(s: string, i: nat)
    requires i < |s| - 1
  {
    s[i] == '.' && s[i + 1] == '.'
  }

  /** No label is empty: not the whole, not the first, not the last, none between two dots. */
  predicate WellFormed(s: string) {
    s != "" && s[0] != '.' && NoGap(s)
  }

  /** No dot at the end and no two in a row. */
  predicate NoGap(s: string) {
    (s != "" ==> s[|s| - 1] != '.') && forall i :: 0 <= i < |s| - 1 ==> !TwoDots(s, i)
  }

  lemma FirstEmpty(s: string)
    ensures Split(s)[0] == "" <==> s == "" || s[0] == '.'
  {
  }

  lemma NoGapTail(s: string)
    requires s != ""
    ensures NoGap(s) <==> NoGap(s[1..]) && (s[0] == '.' ==> s[1..] != "" && s[1] != '.')
  {
    var t := s[1..];
    assert forall i {:trigger TwoDots(t, i)} :: 0 <= i < |t| - 1 ==> TwoDots(t, i) == TwoDots(s, i + 1);
    assert forall i {:trigger TwoDots(s, i)} :: 1 <= i < |s| - 1 ==> TwoDots(s, i) == TwoDots(t, i - 1);
    assert |s| > 1 ==> TwoDots(s, 0) == (s[0] == '.' && s[1] == '.');
  }

  lemma {:induction false} LaterLabels(s: string)
    ensures (forall j :: 1 <= j < |Split(s)| ==> Split(s)[j] != "") <==> NoGap(s)
  {
    if s != "" {
      var rest := Split(s[1..]);
      LaterLabels(s[1..]);
      NoGapTail(s);
      FirstEmpty(s[1..]);
      if s[0] == '.' {
        assert forall j :: 1 <= j < |Split(s)| ==> Split(s)[j] == rest[j - 1];
        assert forall j :: 0 <= j < |rest| ==> rest[j] == Split(s)[j + 1];
      } else {
        assert forall j :: 1 <= j < |rest| ==> Split(s)[j] == rest[j];
      }
    }
  }

  lemma NoEmptyLabel(s: string)
    ensures (forall part :: part in Split(s) ==> part != "") <==> WellFormed(s)
  {
    LaterLabels(s);
    FirstEmpty(s);
    assert forall j :: 0 <= j < |Split(s)| ==> Split(s)[j] in Split(s);
  }

  // ---- The configured parent domains ----

  /** The host is exactly one label above a configured parent. */
  ghost predicate OneLabelAbove(host: string, parents: seq<string>, slug: string) {
    '.' !in slug && exists p :: p in parents && host == slug + "." + Lower(p)
  }

  /**
   The scan returns a slug exactly when the host is that slug, a dot and a
   configured parent, whatever the order or repetition of the parents.
   */
  method SlugForConfiguredParent(host: string, parents: seq<string>) returns (slug: Option<string>)
    ensures forall s :: slug == Some(s) <==> OneLabelAbove(host, parents, s)
  {
    var hostLabels := Split(host);
    for i := 0 to |parents|
      invariant forall s :: !OneLabelAbove(host, parents[..i], s)
    {
      var parentLabels := Split(Lower(parents[i]));
      FirstLabel(host, Lower(parents[i]));
      if |hostLabels| == |parentLabels| + 1 && hostLabels[1..] == parentLabels {
        forall s ensures s == hostLabels[0] <==> OneLabelAbove(host, parents, s) {
          if OneLabelAbove(host, parents, s) {
            var p :| p in parents && host == s + "." + Lower(p);
            HeadIsUnique(s, Lower(p), hostLabels[0], Lower(parents[i]));
          }
        }
        return Some(hostLabels[0]);
      }
      assert parents[..i + 1] == parents[..i] + [parents[i]];
      assert forall s :: OneLabelAbove(host, parents[..i + 1], s) <==>
        OneLabelAbove(host, parents[..i], s) || ('.' !in s && host == s + "." + Lower(parents[i]));
    }
    assert parents[..|parents|] == parents;
    slug := None;
  }

  /** A host is one label above parents in at most one way. */
  lemma SlugIsUnique(host: string, parents: seq<string>, s1: string, s2: string)
    requires OneLabelAbove(host, parents, s1) && OneLabelAbove(host, parents, s2)
    ensures s1 == s2
  {
    var p1 :| p1 in parents && host == s1 + "." + Lower(p1);
    var p2 :| p2 in parents && host == s2 + "." + Lower(p2);
    HeadIsUnique(s1, Lower(p1), s2, Lower(p2));
  }

  /** Without configured parents: the first of at least three labels. */
  ghost predicate FirstOfThree(host: string, slug: string) {
    '.' !in slug && exists rest :: host == slug + "." + rest && '.' in rest
  }

  lemma {:induction false} DotSplits(s: string)
    ensures '.' in s <==> |Split(s)| > 1
  {
    if s != "" {
      DotSplits(s[1..]);
      assert '.' in s <==> s[0] == '.' || '.' in s[1..];
    }
  }

  lemma ThreeLabels(host: string, slug: string)
    ensures |Split(host)| >= 3 && Split(host)[0] == slug <==> FirstOfThree(host, slug)
  {
    if |Split(host)| >= 3 && Split(host)[0] == slug {
      var rest := Join(Split(host)[1..]);
      JoinSplit(host);
      LabelsHaveNoDot(host);
      assert Split(host)[0] in Split(host);
      SplitFirst(slug, rest);
      assert ([slug] + Split(rest))[1..] == Split(rest);
      DotSplits(rest);
    } else if FirstOfThree(host, slug) {
      var rest :| host == slug + "." + rest && '.' in rest;
      SplitFirst(slug, rest);
      DotSplits(rest);
    }
  }

  /** The slug a host names, or None for a host that carries no tenant identity. */
  ghost predicate Names(host: string, parents: Option<seq<string>>, slug: string) {
    && WellFormed(Normal(host))
    && match parents
       case Some(ps) => OneLabelAbove(Normal(host), ps, slug)
       case None => FirstOfThree(Normal(host), slug)
  }

  method SlugOfHost(rawHost: string, parents: Option<seq<string>>) returns (slug: Option<string>)
    ensures forall s :: slug == Some(s) <==> Names(rawHost, parents, s)
  {
    var host := Normal(rawHost);
    var labels := Split(host);
    NoEmptyLabel(host);
    if "" in labels {
      assert !WellFormed(host);
      return None;
    }
    if parents.Some? {
      slug := SlugForConfiguredParent(host, parents.value);
    } else if |labels| < 3 {
      forall s ensures !FirstOfThree(host, s) {
        ThreeLabels(host, s);
      }
      slug := None;
    } else {
      forall s ensures labels[0] == s <==> FirstOfThree(host, s) {
        ThreeLabels(host, s);
      }
      slug := Some(labels[0]);
    }
  }

  // ---- Raw hosts ----

  predicate IsCapital(c: char) {
    'A' <= c <= 'Z'
  }

  predicate NoCapital(s: string) {
    forall c <- s :: !IsCapital(c)
  }

  /** The same characters but for the case of ASCII letters. */
  predicate SameButCase(a: string, b: string) {
    && |a| == |b|
    && forall i :: 0 <= i < |a| ==>
         || a[i] == b[i]
         || (IsCapital(a[i]) && b[i] as int == a[i] as int + 32)
         || (IsCapital(b[i]) && a[i] as int == b[i] as int + 32)
  }

  function Dots(n: nat): string {
    if n == 0 then "" else Dots(n - 1) + "."
  }

  /** Neither a port nor a trailing dot. */
  predicate Bare(h: string) {
    ':' !in h && (h == "" || h[|h| - 1] != '.')
  }

  lemma {:induction false} PortGoes(h: string, port: string)
    requires ':' !in h
    ensures BeforeColon(h + ":" + port) == h && BeforeColon(h) == h
  {
    if h == "" {
      assert "" + ":" + port == ":" + port;
    } else {
      PortGoes(h[1..], port);
      assert (h + ":" + port)[1..] == h[1..] + ":" + port;
    }
  }

  lemma {:induction false} BeforeColonTwice(h: string, port: string)
    ensures BeforeColon(h + ":" + port) == BeforeColon(h)
  {
    if h == "" {
      assert "" + ":" + port == ":" + port;
    } else {
      assert (h + ":" + port)[0] == h[0] && (h + ":" + port)[1..] == h[1..] + ":" + port;
      if h[0] != ':' {
        BeforeColonTwice(h[1..], port);
      }
    }
  }

  /** Whatever follows a colon makes no difference. */
  lemma PortIsDropped(h: string, port: string)
    ensures Normal(h + ":" + port) == Normal(h)
  {
    BeforeColonTwice(h, port);
  }

  lemma {:induction false} DotsGo(h: string, n: nat)
    requires Bare(h)
    ensures StripDots(h + Dots(n)) == h
  {
    if n == 0 {
      assert h + "" == h;
    } else {
      var before := h + Dots(n - 1);
      ConcatAssociates(h, Dots(n - 1), ".");
      assert (before + ".")[..|before|] == before;
      DotsGo(h, n - 1);
    }
  }

  lemma {:induction false} NoColonInDots(n: nat)
    ensures ':' !in Dots(n)
  {
    if n > 0 {
      NoColonInDots(n - 1);
    }
  }

  /** Nor do dots at the end of the name. */
  lemma TrailingDotIsDropped(h: string)
    requires ':' !in h
    ensures Normal(h + ".") == Normal(h)
  {
    PortGoes(h, "");
    PortGoes(h + ".", "");
    assert (h + ".")[..|h|] == h;
  }

  lemma LowerSameButCase(s: string)
    ensures SameButCase(s, Lower(s)) && NoCapital(Lower(s))
    ensures NoCapital(s) ==> Lower(s) == s
  {
    forall i | 0 <= i < |s| && NoCapital(s) ensures !IsCapital(s[i]) {
      assert s[i] in s;
    }
  }

  lemma CaseIsLost(a: string, b: string)
    requires SameButCase(a, b)
    ensures Lower(a) == Lower(b)
  {
  }

  /** A name with neither, and no capital, is its own normal form. */
  lemma NormalIsItself(h: string)
    requires Bare(h) && NoCapital(h)
    ensures Normal(h) == h
  {
    PortGoes(h, "");
    LowerSameButCase(h);
  }

  function Port(port: Option<string>): string {
    if port.None? then "" else ":" + port.value
  }

  /** A name in any case, with any dots after it and any port, has the normal form of the name. */
  lemma NormalOf(name: string, h: string, dots: nat, port: Option<string>)
    requires Bare(name) && NoCapital(name) && SameButCase(h, name)
    ensures Normal(h + Dots(dots) + Port(port)) == name
  {
    BareInAnyCase(name, h);
    var written := h + Dots(dots);
    NoColonInDots(dots);
    if port.Some? {
      PortGoes(written, port.value);
      assert written + Port(port) == written + ":" + port.value;
    } else {
      PortGoes(written, "");
      assert written + "" == written;
    }
    DotsGo(h, dots);
    CaseIsLost(h, name);
    LowerSameButCase(name);
  }

  lemma BareInAnyCase(name: string, h: string)
    requires Bare(name) && SameButCase(h, name)
    ensures Bare(h)
  {
    forall i | 0 <= i < |h| ensures h[i] != ':' {
      assert name[i] in name;
    }
  }

  /** And every raw host is of that form: a name in some case, dots, and perhaps a port. */
  lemma EveryHostIsWritten(raw: string) returns (h: string, dots: nat, port: Option<string>)
    ensures raw == h + Dots(dots) + Port(port)
    ensures Bare(h) && NoCapital(Normal(raw)) && SameButCase(h, Normal(raw))
  {
    var front: string;
    front, port := SplitPort(raw);
    h, dots := SplitDots(front);
    LowerSameButCase(h);
  }

  lemma {:induction false} SplitPort(raw: string) returns (front: string, port: Option<string>)
    ensures raw == front + Port(port) && front == BeforeColon(raw) && ':' !in front
  {
    if raw == "" {
      front, port := "", None;
    } else if raw[0] == ':' {
      front, port := "", Some(raw[1..]);
    } else {
      var rest;
      rest, port := SplitPort(raw[1..]);
      front := [raw[0]] + rest;
      assert raw == [raw[0]] + (rest + Port(port));
    }
  }

  lemma {:induction false} SplitDots(front: string) returns (h: string, dots: nat)
    requires ':' !in front
    ensures front == h + Dots(dots) && h == StripDots(front) && Bare(h)
  {
    if front != "" && front[|front| - 1] == '.' {
      var before := front[..|front| - 1];
      var n;
      h, n := SplitDots(before);
      dots := n + 1;
      assert front == before + "." && h + Dots(n) + "." == h + Dots(dots);
    } else {
      h, dots := front, 0;
      assert front == front + "";
    }
  }

  /** The raw host is the name in some letter case, any dots after it, and perhaps a port. */
  predicate Writes(raw: string, name: string, h: string, dots: nat, port: Option<string>) {
    raw == h + Dots(dots) + Port(port) && SameButCase(h, name)
  }

  /** Normalising forgets exactly that: the case, the dots at the end and the port. */
  lemma NormalExactlyWhen(raw: string, name: string)
    ensures Normal(raw) == name
       <==> Bare(name) && NoCapital(name) && exists h, dots, port :: Writes(raw, name, h, dots, port)
  {
    if Normal(raw) == name {
      var h, dots, port := EveryHostIsWritten(raw);
      BareInAnyCase(h, name);
      assert Writes(raw, name, h, dots, port);
    } else if Bare(name) && NoCapital(name) {
      if h, dots, port :| Writes(raw, name, h, dots, port) {
        NormalOf(name, h, dots, port);
      }
    }
  }

  /**
   A host is the label s above the parent p, in any letter case, with any dots
   after it and any port, and s is what it names.
   */
  lemma AnyHostNamesItsLabel(s: string, p: string, h: string, dots: nat, port: Option<string>, parents: seq<string>)
    requires s != "" && '.' !in s && NoCapital(s + "." + p) && Bare(s + "." + p) && WellFormed(s + "." + p)
    requires SameButCase(h, s + "." + p) && exists q :: q in parents && SameButCase(q, p)
    ensures Names(h + Dots(dots) + Port(port), Some(parents), s)
  {
    NormalOf(s + "." + p, h, dots, port);
    var q :| q in parents && SameButCase(q, p);
    CaseIsLost(q, p);
    assert NoCapital(p) by {
      forall c | c in p ensures !IsCapital(c) {
        assert c in s + "." + p;
      }
    }
    LowerSameButCase(p);
  }
}

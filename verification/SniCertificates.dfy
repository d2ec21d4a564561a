/**
 * The certificate manager: a map from lower-cased domain patterns to certificate
 * bundles, looked up by server name.  Names are ASCII; bundles are opaque values.
 */
module SniCertificates {
  import opened Options

  type Bundle = nat

  // ----- case folding

  function LowerChar(c: char): (l: char)
  {
    if 'A' <= c <= 'Z' then ((c as int) + 32) as char else c
  }

  function Lower(s: string): (l: string)
    ensures |l| == |s|
    ensures forall i :: 0 <= i < |s| ==> l[i] == LowerChar(s[i])
  {
    seq(|s|, i requires 0 <= i < |s| => LowerChar(s[i]))
  }

  const UPPER := "ABCDEFGHIJKLMNOPQRSTUVWXYZ"
  const LOWER := "abcdefghijklmnopqrstuvwxyz"

  /** The two characters are the capital and the small form of one letter. */
  ghost predicate LetterPair(upper: char, lower: char) {
    exists i :: 0 <= i < 26 && UPPER[i] == upper && LOWER[i] == lower
  }

  ghost predicate SameLetter(c: char, d: char) {
    c == d || LetterPair(c, d) || LetterPair(d, c)
  }

  /** Two spellings of one name: they differ at most in the case of ASCII letters. */
  ghost predicate SameName(a: string, b: string) {
    |a| == |b| && forall i :: 0 <= i < |a| ==> SameLetter(a[i], b[i])
  }

  lemma AlphabetInOrder(i: int)
    requires 0 <= i < 26
    ensures UPPER[i] as int == 'A' as int + i && LOWER[i] as int == 'a' as int + i
  {
  }

  /** A capital folds to its own small letter, and nothing else changes. */
  lemma FoldsLetters(c: char)
    ensures 'A' <= c <= 'Z' ==> LetterPair(c, LowerChar(c))
    ensures !('A' <= c <= 'Z') ==> LowerChar(c) == c
  {
    if 'A' <= c <= 'Z' {
      var i := c as int - 'A' as int;
      AlphabetInOrder(i);
      assert UPPER[i] == c && LOWER[i] == LowerChar(c);
    }
  }

  lemma PairFolds(upper: char, lower: char)
    requires LetterPair(upper, lower)
    ensures LowerChar(upper) == lower == LowerChar(lower)
  {
    var i :| 0 <= i < 26 && UPPER[i] == upper && LOWER[i] == lower;
    AlphabetInOrder(i);
  }

  lemma SameLetterIffFolded(c: char, d: char)
    ensures SameLetter(c, d) <==> LowerChar(c) == LowerChar(d)
  {
    FoldsLetters(c);
    FoldsLetters(d);
    if LetterPair(c, d) {
      PairFolds(c, d);
    } else if LetterPair(d, c) {
      PairFolds(d, c);
    } else if LowerChar(c) == LowerChar(d) && 'A' <= c <= 'Z' && 'A' <= d <= 'Z' {
      CapitalsDiffer(c, d);
    }
  }

  lemma CapitalsDiffer(c: char, d: char)
    requires LetterPair(c, LowerChar(c)) && LetterPair(d, LowerChar(d)) && LowerChar(c) == LowerChar(d)
    ensures c == d
  {
    var i :| 0 <= i < 26 && UPPER[i] == c && LOWER[i] == LowerChar(c);
    var j :| 0 <= j < 26 && UPPER[j] == d && LOWER[j] == LowerChar(d);
    AlphabetInOrder(i);
    AlphabetInOrder(j);
  }

  /** Folding identifies exactly the spellings of one name. */
  lemma SameNameIffFolded(a: string, b: string)
    ensures SameName(a, b) <==> Lower(a) == Lower(b)
  {
    if |a| == |b| {
      forall i | 0 <= i < |a|
        ensures SameLetter(a[i], b[i]) <==> Lower(a)[i] == Lower(b)[i]
      {
        SameLetterIffFolded(a[i], b[i]);
      }
    }
  }

  // ----- the reference: a history of calls, and a scan over all live patterns

  datatype Op =
    | Register(domain: string, bundle: Bundle)
    | Remove(domain: string)
    | SetDefault(bundle: Bundle)

  /** The bundle that the history leaves for a pattern in any spelling, if any. */
  ghost function Live(log: seq<Op>, pattern: string): (b: Option<Bundle>) {
    if log == [] then None
    else
      var last := |log| - 1;
      match log[last]
      case Register(d, b) => if SameName(d, pattern) then Some(b) else Live(log[..last], pattern)
      case Remove(d) => if SameName(d, pattern) then None else Live(log[..last], pattern)
      case SetDefault(_) => Live(log[..last], pattern)
  }

  ghost function Default(log: seq<Op>): (b: Option<Bundle>) {
    if log == [] then None
    else if log[|log| - 1].SetDefault? then Some(log[|log| - 1].bundle)
    else Default(log[..|log| - 1])
  }

  /** The name is a label without dots followed by a suffix that starts with one; k is where. */
  ghost predicate LabelEndsAt(name: string, k: int) {
    0 <= k < |name| && name[k] == '.' && forall i :: 0 <= i < k ==> name[i] != '.'
  }

  /** The pattern is a star followed by the name's suffix. */
  ghost predicate WildcardMatches(pattern: string, name: string) {
    exists k :: LabelEndsAt(name, k) && pattern == "*" + name[k..]
  }

  ghost predicate SomeWildcard(log: seq<Op>, name: string) {
    exists p :: WildcardMatches(p, name) && Live(log, p).Some?
  }

  /**
   * What a lookup owes the caller: the live pattern that is the name in some spelling;
   * failing that, any live wildcard pattern that matches it; failing that, the default.
   */
  ghost predicate Answers(log: seq<Op>, name: string, r: Option<Bundle>) {
    if Live(log, name).Some? then r == Live(log, name)
    else if SomeWildcard(log, name) then
      forall p :: WildcardMatches(p, name) && Live(log, p).Some? ==> r == Live(log, p)
    else r == Default(log)
  }

  // ----- facts about wildcards

  /** A name matches at most one wildcard pattern, so the scan cannot be ambiguous. */
  lemma WildcardIsUnique(p: string, q: string, name: string)
    requires WildcardMatches(p, name) && WildcardMatches(q, name)
    ensures p == q
  {
    var j :| LabelEndsAt(name, j) && p == "*" + name[j..];
    var k :| LabelEndsAt(name, k) && q == "*" + name[k..];
    assert j == k;
  }

  ghost function Dots(s: string): (n: nat) {
    if s == [] then 0 else (if s[0] == '.' then 1 else 0) + Dots(s[1..])
  }

  lemma {:induction false} DotsOfSuffix(name: string, k: nat)
    requires k <= |name| && forall i :: 0 <= i < k ==> name[i] != '.'
    ensures Dots(name) == Dots(name[k..])
  {
    if k > 0 {
      DotsOfSuffix(name[1..], k - 1);
      assert name[1..][k - 1..] == name[k..];
    } else {
      assert name[0..] == name;
    }
  }

  /**
   * The star stands for exactly one label, which may be empty: name and pattern have
   * equally many dots, and the name ".example.com" matches "*.example.com".
   */
  lemma WildcardCoversOneLabel(p: string, name: string)
    requires WildcardMatches(p, name)
    ensures Dots(p) == Dots(name) && Dots(name) >= 1
  {
    var k :| LabelEndsAt(name, k) && p == "*" + name[k..];
    DotsOfSuffix(name, k);
    assert p[1..] == name[k..];
  }

  /** The scan determines the answer. */
  lemma AnswerIsUnique(log: seq<Op>, name: string, r: Option<Bundle>, r': Option<Bundle>)
    requires Answers(log, name, r) && Answers(log, name, r')
    ensures r == r'
  {
    if Live(log, name).None? && SomeWildcard(log, name) {
      var p :| WildcardMatches(p, name) && Live(log, p).Some?;
      assert r == Live(log, p) == r';
    }
  }

  // ----- spellings

  lemma {:induction false} LiveIgnoresCase(log: seq<Op>, p: string, q: string)
    requires SameName(p, q)
    ensures Live(log, p) == Live(log, q)
  {
    SameNameIffFolded(p, q);
    if log != [] {
      LiveIgnoresCase(log[..|log| - 1], p, q);
      if !log[|log| - 1].SetDefault? {
        SameNameIffFolded(log[|log| - 1].domain, p);
        SameNameIffFolded(log[|log| - 1].domain, q);
      }
    }
  }

  lemma DotIsItself(c: char)
    ensures SameLetter(c, '.') ==> c == '.'
    ensures SameLetter('.', c) ==> c == '.'
  {
    SameLetterIffFolded(c, '.');
    SameLetterIffFolded('.', c);
  }

  /** A wildcard that matches one spelling is, in some spelling, one that matches the other. */
  lemma WildcardIgnoresCase(p: string, name: string, other: string) returns (q: string)
    requires WildcardMatches(p, name) && SameName(name, other)
    ensures WildcardMatches(q, other) && SameName(p, q)
  {
    var k :| LabelEndsAt(name, k) && p == "*" + name[k..];
    forall i | 0 <= i <= k
      ensures name[i] == '.' <==> other[i] == '.'
    {
      DotIsItself(name[i]);
      DotIsItself(other[i]);
    }
    assert LabelEndsAt(other, k);
    q := "*" + other[k..];
    assert forall i :: 0 < i < |p| ==> p[i] == name[k + i - 1] && q[i] == other[k + i - 1];
  }

  /** Two spellings of one name get the same answers. */
  lemma AnswerIgnoresCase(log: seq<Op>, a: string, b: string, r: Option<Bundle>)
    requires SameName(a, b) && Answers(log, a, r)
    ensures Answers(log, b, r)
  {
    LiveIgnoresCase(log, a, b);
    SameNameIffFolded(a, b);
    SameNameIffFolded(b, a);
    if SomeWildcard(log, a) {
      var p :| WildcardMatches(p, a) && Live(log, p).Some?;
      var q := WildcardIgnoresCase(p, a, b);
      LiveIgnoresCase(log, p, q);
    }
    forall q | WildcardMatches(q, b) && Live(log, q).Some?
      ensures SomeWildcard(log, a) && (Live(log, a).None? ==> r == Live(log, q))
    {
      var p := WildcardIgnoresCase(q, b, a);
      LiveIgnoresCase(log, q, p);
    }
  }

  /** No later call registers or removes the name, in any spelling. */
  ghost predicate LeavesAlone(later: seq<Op>, name: string) {
    forall i :: 0 <= i < |later| && !later[i].SetDefault? ==> !SameName(later[i].domain, name)
  }

  /**
   * A registered name is found again under every spelling, until some spelling of it is
   * registered anew or removed.
   */
  lemma RegisteredIsFound(
    log: seq<Op>, domain: string, bundle: Bundle, later: seq<Op>, name: string, r: Option<Bundle>)
    requires SameName(domain, name) && LeavesAlone(later, name)
    ensures Answers(log + [Register(domain, bundle)] + later, name, r) <==> r == Some(bundle)
  {
    StillLive(log, domain, bundle, later, name);
  }

  lemma {:induction false} StillLive(log: seq<Op>, domain: string, bundle: Bundle, later: seq<Op>, name: string)
    requires SameName(domain, name) && LeavesAlone(later, name)
    ensures Live(log + [Register(domain, bundle)] + later, name) == Some(bundle)
  {
    var all := log + [Register(domain, bundle)] + later;
    if later == [] {
      assert all == log + [Register(domain, bundle)];
    } else {
      var last := |later| - 1;
      StillLive(log, domain, bundle, later[..last], name);
      assert all[..|all| - 1] == log + [Register(domain, bundle)] + later[..last];
    }
  }

  class SniCertificateManager {
    var domains: map<string, Bundle>
    var defaultBundle: Option<Bundle>
    ghost var log: seq<Op>

    ghost function Found(pattern: string): (b: Option<Bundle>)
      reads this
    {
      if Lower(pattern) in domains then Some(domains[Lower(pattern)]) else None
    }

    ghost predicate Valid()
      reads this
    {
      && (forall p :: Live(log, p) == Found(p))
      && defaultBundle == Default(log)
    }

    constructor ()
      ensures Valid() && log == []
    {
      domains, defaultBundle := map[], None;
      log := [];
    }

    method SetDefaultBundle(bundle: Bundle)
      requires Valid()
      modifies this
      ensures Valid() && log == old(log) + [SetDefault(bundle)]
    {
      defaultBundle := Some(bundle);
      log := log + [SetDefault(bundle)];
      assert log[..|log| - 1] == old(log);
    }

    method RegisterDomain(domain: string, bundle: Bundle)
      requires Valid()
      modifies this
      ensures Valid() && log == old(log) + [Register(domain, bundle)]
    {
      domains := domains[Lower(domain) := bundle];
      log := log + [Register(domain, bundle)];
      assert log[..|log| - 1] == old(log);
      forall p ensures Live(log, p) == Found(p) {
        SameNameIffFolded(domain, p);
        assert Live(old(log), p) == old(Found(p));
      }
    }

    method RemoveDomain(domain: string) returns (removed: bool)
      requires Valid()
      modifies this
      ensures Valid() && log == old(log) + [Remove(domain)]
      ensures removed <==> Live(old(log), domain).Some?
    {
      assert Live(log, domain) == Found(domain);
      removed := Lower(domain) in domains;
      domains := domains - {Lower(domain)};
      log := log + [Remove(domain)];
      assert log[..|log| - 1] == old(log);
      forall p ensures Live(log, p) == Found(p) {
        SameNameIffFolded(domain, p);
        assert Live(old(log), p) == old(Found(p));
      }
    }

    /** Two map lookups agree with the scan over every live pattern, after any history. */
    method GetCertificate(serverName: string) returns (r: Option<Bundle>)
      requires Valid()
      ensures Answers(log, serverName, r)
    {
      var cleanName := Lower(serverName);
      assert Live(log, serverName) == Found(serverName);
      if cleanName in domains {
        return Some(domains[cleanName]);
      }
      FoldKeepsDots(serverName);
      var dot := 0;
      while dot < |cleanName| && cleanName[dot] != '.'
        invariant 0 <= dot <= |cleanName|
        invariant forall i :: 0 <= i < dot ==> cleanName[i] != '.'
      {
        dot := dot + 1;
      }
      if dot < |cleanName| {
        var wildcard := "*" + cleanName[dot..];
        ghost var pattern := "*" + serverName[dot..];
        FoldWildcard(serverName, dot);
        assert LabelEndsAt(serverName, dot);
        assert WildcardMatches(pattern, serverName);
        forall p | WildcardMatches(p, serverName)
          ensures p == pattern
        {
          WildcardIsUnique(p, pattern, serverName);
        }
        assert Live(log, pattern) == Found(pattern);
        if wildcard in domains {
          return Some(domains[wildcard]);
        }
      }
      return defaultBundle;
    }
  }

  lemma FoldKeepsDots(s: string)
    ensures forall i :: 0 <= i < |s| ==> (Lower(s)[i] == '.' <==> s[i] == '.')
  {
    forall i | 0 <= i < |s|
      ensures Lower(s)[i] == '.' <==> s[i] == '.'
    {
      SameLetterIffFolded(s[i], '.');
      FoldsLetters('.');
      DotIsItself(s[i]);
    }
  }

  lemma FoldWildcard(name: string, k: nat)
    requires k <= |name|
    ensures Lower("*" + name[k..]) == "*" + Lower(name)[k..]
  {
    FoldsLetters('*');
  }
}

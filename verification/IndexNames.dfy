/**
 Index names (parsedmarc/cli.py and parsedmarc/elastic.py): how a saved report gets its index, and which
 names a migration targets so that it reaches every index a deployment may have written.

 An option that is unset and one that is the empty string behave alike, so both are the empty string here.
 */
module IndexNames {
  import opened Wrappers

  /* ---------- Tenant prefixes ---------- */

  /** One entry of `index_prefix_domain_map`: a key and the base domains listed under it. */
  datatype Tenant = Tenant(key: string, domains: seq<string>)

  /** What a report says about its domain. */
  datatype Report =
    | Aggregate(policyDomain: string)
    | Failure(reportedDomain: string)
    | SmtpTls(policyDomains: seq<string>)

  predicate IsWhitespace(c: char) {
    || '\t' <= c <= '\r' || '\U{1C}' <= c <= ' ' || c == '\U{85}' || c == '\U{A0}' || c == '\U{1680}'
    || '\U{2000}' <= c <= '\U{200A}' || c == '\U{2028}' || c == '\U{2029}' || c == '\U{202F}' || c == '\U{205F}'
    || c == '\U{3000}'
  }

  predicate IsUnderscore(c: char) {
    c == '_'
  }

  /** Of the ASCII characters, blanks are the space, the tab, the line ends and the four separators before the space. */
  lemma AsciiBlanks(c: char)
    requires c as int < 128
    ensures IsWhitespace(c) <==> c == ' ' || c == '\t' || c == '\n' || c == '\r' || c as int in {11, 12, 28, 29, 30, 31}
  {
  }

  function LowerChar(c: char): char {
    if 'A' <= c <= 'Z' then (c as int + 32) as char else c
  }

  function Lower(s: string): (r: string)
    ensures |r| == |s| && forall i :: 0 <= i < |s| ==> r[i] == LowerChar(s[i])
  {
    seq(|s|, i requires 0 <= i < |s| => LowerChar(s[i]))
  }

  /** `s` without the longest prefix and suffix of characters satisfying `drop`. */
  function Strip(s: string, drop: char -> bool): string {
    if s == [] then []
    else if drop(s[0]) then Strip(s[1..], drop)
    else if drop(s[|s| - 1]) then Strip(s[..|s| - 1], drop)
    else s
  }

  function Underscored(s: string): (r: string)
    ensures |r| == |s| && forall i :: 0 <= i < |s| ==> r[i] == if s[i] == ' ' || s[i] == '-' then '_' else s[i]
  {
    seq(|s|, i requires 0 <= i < |s| => if s[i] == ' ' || s[i] == '-' then '_' else s[i])
  }

  function NormalizeIndexPrefix(key: string): string {
    Underscored(Strip(Strip(Lower(key), IsWhitespace), IsUnderscore)) + "_"
  }

  /** Stripping cuts off both ends as far as every character there is dropped, and no further. */
  lemma {:induction false} StripCutsEnds(s: string, drop: char -> bool) returns (i: nat, j: nat)
    ensures i <= j <= |s| && Strip(s, drop) == s[i..j]
    ensures forall k :: 0 <= k < i || j <= k < |s| ==> drop(s[k])
    ensures i < j ==> !drop(s[i]) && !drop(s[j - 1])
  {
    if s == [] {
      i, j := 0, 0;
    } else if drop(s[0]) {
      i, j := StripCutsEnds(s[1..], drop);
      i, j := i + 1, j + 1;
      assert forall k :: 1 <= k < |s| ==> s[k] == s[1..][k - 1];
    } else if drop(s[|s| - 1]) {
      i, j := StripCutsEnds(s[..|s| - 1], drop);
      assert forall k :: 0 <= k < |s| - 1 ==> s[k] == s[..|s| - 1][k];
    } else {
      i, j := 0, |s|;
    }
  }

  lemma LowerKeepsBlanks(c: char)
    ensures IsWhitespace(LowerChar(c)) <==> IsWhitespace(c)
    ensures LowerChar(c) == '_' <==> c == '_'
  {
  }

  /** Capital letters A to Z become their small letters, which come 32 later; nothing else changes. */
  lemma LowerIsLower()
    ensures forall c: char :: LowerChar(c) as int == if 65 <= c as int <= 90 then c as int + 32 else c as int
    ensures forall c: char :: !('A' <= LowerChar(c) <= 'Z')
    ensures forall c: char :: (LowerChar(c) == ' ' <==> c == ' ') && (LowerChar(c) == '-' <==> c == '-')
  {
  }

  /**
   What a tenant prefix keeps of its key: exactly the blanks around it and then exactly the underscores around what is
   left are cut off; the rest is lower-cased, with underscores for spaces and hyphens and one underscore after it.
   */
  lemma NormalizedPrefixShape(key: string) returns (blank: nat, i: nat, j: nat, blankEnd: nat)
    ensures blank <= i <= j <= blankEnd <= |key|
    ensures forall k :: 0 <= k < blank || blankEnd <= k < |key| ==> IsWhitespace(key[k])
    ensures blank < blankEnd ==> !IsWhitespace(key[blank]) && !IsWhitespace(key[blankEnd - 1])
    ensures forall k :: blank <= k < i || j <= k < blankEnd ==> key[k] == '_'
    ensures i < j ==> key[i] != '_' && key[j - 1] != '_'
    ensures var p := NormalizeIndexPrefix(key);
      && |p| == j - i + 1 && p[j - i] == '_'
      && (forall k :: 0 <= k < j - i ==>
        p[k] == if key[i + k] == ' ' || key[i + k] == '-' then '_' else LowerChar(key[i + k]))
      && (forall c :: c in p ==> c != ' ' && c != '-' && !('A' <= c <= 'Z'))
  {
    LowerIsLower();
    var lowered := Lower(key);
    hide Strip, IsWhitespace, LowerChar;
    blank, blankEnd := StripCutsEnds(lowered, IsWhitespace);
    var trimmed := Strip(lowered, IsWhitespace);
    var i2, j2 := StripCutsEnds(trimmed, IsUnderscore);
    i, j := blank + i2, blank + j2;
    CutAsInKey(key, lowered, blank, blankEnd, i2, j2);
    PieceIsMapped(key, lowered, i, j);
    PieceOfPiece(lowered, blank, blankEnd, i2, j2);
    if i < j {
      LowerKeepsBlanks(key[i]);
      LowerKeepsBlanks(key[j - 1]);
    }
  }

  lemma PieceOfPiece(s: string, i1: nat, j1: nat, i2: nat, j2: nat)
    requires i1 <= j1 <= |s| && i2 <= j2 <= j1 - i1
    ensures s[i1..j1][i2..j2] == s[i1 + i2..i1 + j2]
    ensures i2 < j2 ==> s[i1..j1][i2] == s[i1 + i2] && s[i1..j1][j2 - 1] == s[i1 + j2 - 1]
  {
    var a, b := s[i1..j1][i2..j2], s[i1 + i2..i1 + j2];
    forall k | 0 <= k < |a| ensures a[k] == b[k] {
      assert a[k] == s[i1..j1][i2 + k] == s[i1 + (i2 + k)];
    }
  }

  /** What is blank or an underscore in lower case is so in the key. */
  lemma CutAsInKey(key: string, lowered: string, i1: nat, j1: nat, i2: nat, j2: nat)
    requires lowered == Lower(key) && i1 <= j1 <= |key| && i2 <= j2 <= j1 - i1
    requires forall k :: 0 <= k < i1 || j1 <= k < |key| ==> IsWhitespace(lowered[k])
    requires i1 < j1 ==> !IsWhitespace(lowered[i1]) && !IsWhitespace(lowered[j1 - 1])
    requires forall k :: 0 <= k < i2 || j2 <= k < j1 - i1 ==> IsUnderscore(lowered[i1..j1][k])
    ensures forall k :: 0 <= k < i1 || j1 <= k < |key| ==> IsWhitespace(key[k])
    ensures i1 < j1 ==> !IsWhitespace(key[i1]) && !IsWhitespace(key[j1 - 1])
    ensures forall k :: i1 <= k < i1 + i2 || i1 + j2 <= k < j1 ==> key[k] == '_'
  {
    hide IsWhitespace, LowerChar;
    forall k | 0 <= k < |key| ensures IsWhitespace(lowered[k]) <==> IsWhitespace(key[k]) {
      LowerKeepsBlanks(key[k]);
    }
    forall k | i1 <= k < i1 + i2 || i1 + j2 <= k < j1 ensures key[k] == '_' {
      LowerKeepsBlanks(key[k]);
      assert IsUnderscore(lowered[i1..j1][k - i1]);
    }
  }

  lemma PieceIsMapped(key: string, lowered: string, i: nat, j: nat)
    requires lowered == Lower(key) && i <= j <= |key|
    ensures var p := Underscored(lowered[i..j]) + "_";
      && |p| == j - i + 1 && p[j - i] == '_'
      && forall k :: 0 <= k < j - i ==>
        p[k] == if key[i + k] == ' ' || key[i + k] == '-' then '_' else LowerChar(key[i + k])
  {
    forall k | 0 <= k < j - i
      ensures Underscored(lowered[i..j])[k] == if key[i + k] == ' ' || key[i + k] == '-' then '_'
        else LowerChar(key[i + k])
    {
      assert lowered[i..j][k] == LowerChar(key[i + k]);
    }
  }

  /* ---------- The save path ---------- */

  function ReportDomain(report: Report): string {
    match report
    case Aggregate(domain) => domain
    case Failure(domain) => domain
    case SmtpTls(domains) => if domains == [] then "" else domains[0]
  }

  /** The prefix of the first tenant that lists `domain`. */
  function TenantPrefix(tenants: seq<Tenant>, domain: string): Option<string> {
    if tenants == [] then None
    else if domain in tenants[0].domains then Some(NormalizeIndexPrefix(tenants[0].key))
    else TenantPrefix(tenants[1..], domain)
  }

  /** `baseDomain` stands for the public suffix lookup. */
  function GetIndexPrefix(tenants: Option<seq<Tenant>>, report: Report, baseDomain: string -> Option<string>)
    : Option<string>
  {
    if tenants.None? || ReportDomain(report) == "" then None
    else match baseDomain(ReportDomain(report))
      case None => None
      case Some(domain) => if domain == "" then None else TenantPrefix(tenants.value, Lower(domain))
  }

  /** The prefix a report is saved under; the empty string when it gets none. */
  function SavePrefix(
    configured: string, tenants: Option<seq<Tenant>>, report: Report, baseDomain: string -> Option<string>
  ): string {
    if configured != "" then configured
    else match GetIndexPrefix(tenants, report, baseDomain)
      case None => ""
      case Some(prefix) => prefix
  }

  function Suffixed(base: string, suffix: string): string {
    if suffix == "" then base else base + "_" + suffix
  }

  function SavedIndex(prefix: string, base: string, suffix: string, date: string): string {
    prefix + Suffixed(base, suffix) + "-" + date
  }

  lemma SuffixedShape(prefix: string, base: string, suffix: string)
    ensures prefix + Suffixed(base, suffix) == if suffix == "" then prefix + base else prefix + base + "_" + suffix
  {
  }

  predicate IsFirstMatch(tenants: seq<Tenant>, domain: string, i: int) {
    0 <= i < |tenants| && domain in tenants[i].domains && forall j :: 0 <= j < i ==> domain !in tenants[j].domains
  }

  /** A tenant prefix is found exactly when some tenant lists the domain, and it is the first such tenant's. */
  lemma {:induction false} TenantPrefixIsFirstMatch(tenants: seq<Tenant>, domain: string)
    ensures TenantPrefix(tenants, domain).None? <==> forall i :: 0 <= i < |tenants| ==> domain !in tenants[i].domains
    ensures TenantPrefix(tenants, domain).Some? ==>
      exists i :: IsFirstMatch(tenants, domain, i) &&
                  TenantPrefix(tenants, domain).value == NormalizeIndexPrefix(tenants[i].key)
  {
    hide NormalizeIndexPrefix;
    if tenants != [] && domain !in tenants[0].domains {
      var rest := tenants[1..];
      TenantPrefixIsFirstMatch(rest, domain);
      if TenantPrefix(rest, domain).Some? {
        var i :| IsFirstMatch(rest, domain, i) && TenantPrefix(rest, domain).value == NormalizeIndexPrefix(rest[i].key);
        assert forall j :: 0 < j < i + 1 ==> tenants[j] == rest[j - 1];
        assert IsFirstMatch(tenants, domain, i + 1);
      } else {
        assert forall i :: 0 < i < |tenants| ==> tenants[i] == rest[i - 1];
      }
    } else if tenants != [] {
      assert IsFirstMatch(tenants, domain, 0);
    }
  }

  /** The report is about this domain: its policy's, the reported one, or that of its first policy. */
  predicate IsAbout(report: Report, domain: string) {
    report == Aggregate(domain) || report == Report.Failure(domain)
    || (report.SmtpTls? && report.policyDomains != [] && report.policyDomains[0] == domain)
  }

  /** A report is saved under the prefix of the first tenant that lists the base domain of what it is about. */
  lemma SavedUnderFirstTenant(tenants: seq<Tenant>, report: Report, baseDomain: string -> Option<string>,
      domain: string, base: string, i: nat)
    requires IsAbout(report, domain) && domain != "" && baseDomain(domain) == Some(base) && base != ""
    requires i < |tenants| && Lower(base) in tenants[i].domains
    requires forall j :: 0 <= j < i ==> Lower(base) !in tenants[j].domains
    ensures SavePrefix("", Some(tenants), report, baseDomain) == NormalizeIndexPrefix(tenants[i].key)
  {
    hide NormalizeIndexPrefix;
    assert ReportDomain(report) == domain;
    TenantPrefixIsFirstMatch(tenants, Lower(base));
  }

  /** An SMTP TLS report without policies is about no domain; a configured prefix goes before every tenant's. */
  lemma SavedWithoutTenant(configured: string, tenants: Option<seq<Tenant>>, report: Report,
      baseDomain: string -> Option<string>)
    ensures report == SmtpTls([]) ==> SavePrefix("", tenants, report, baseDomain) == ""
    ensures configured != "" ==> SavePrefix(configured, tenants, report, baseDomain) == configured
  {
  }

  predicate Lists(tenants: seq<Tenant>, domain: string) {
    exists i :: 0 <= i < |tenants| && domain in tenants[i].domains
  }

  /** A report goes without a prefix exactly when none is configured and no tenant lists its base domain. */
  lemma UnprefixedExactlyWhen(
    configured: string, tenants: Option<seq<Tenant>>, report: Report, baseDomain: string -> Option<string>
  )
    ensures SavePrefix(configured, tenants, report, baseDomain) == "" <==>
      configured == "" &&
        (tenants.None? || ReportDomain(report) == "" || baseDomain(ReportDomain(report)) in {None, Some("")}
        || !Lists(tenants.value, Lower(baseDomain(ReportDomain(report)).value)))
  {
    if tenants.Some? && baseDomain(ReportDomain(report)).Some? {
      TenantPrefixIsFirstMatch(tenants.value, Lower(baseDomain(ReportDomain(report)).value));
    }
  }

  /* ---------- Removing duplicates ---------- */

  /** Each element at its first occurrence only. */
  function Unique(s: seq<string>): seq<string> {
    if s == [] then []
    else
      var rest := Unique(s[..|s| - 1]);
      if s[|s| - 1] in rest then rest else rest + [s[|s| - 1]]
  }

  predicate NoDuplicates(s: seq<string>) {
    forall i, j :: 0 <= i < j < |s| ==> s[i] != s[j]
  }

  lemma UniqueAppend(s: seq<string>, x: string)
    ensures Unique(s + [x]) == if x in Unique(s) then Unique(s) else Unique(s) + [x]
  {
    assert (s + [x])[..|s|] == s;
  }

  lemma UniqueExtend(before: seq<string>, s: seq<string>, j: nat)
    requires j < |s|
    ensures var sofar := Unique(before + s[..j]);
      Unique(before + s[..j + 1]) == if s[j] in sofar then sofar else sofar + [s[j]]
  {
    UniqueAppend(before + s[..j], s[j]);
    assert before + s[..j + 1] == before + s[..j] + [s[j]];
  }

  lemma {:induction false} UniqueKeepsElements(s: seq<string>)
    ensures NoDuplicates(Unique(s))
    ensures forall x :: x in Unique(s) <==> x in s
  {
    if s != [] {
      UniqueKeepsElements(s[..|s| - 1]);
      assert s == s[..|s| - 1] + [s[|s| - 1]];
    }
  }

  function FirstIndex(s: seq<string>, x: string): (i: nat)
    requires x in s
    ensures i < |s| && s[i] == x && x !in s[..i]
  {
    if s[0] == x then 0 else FirstIndex(s[1..], x) + 1
  }

  /** Removing duplicates keeps the order in which names were first seen. */
  lemma {:induction false} UniqueKeepsFirstSeenOrder(s: seq<string>, i: nat, j: nat)
    requires i < j < |Unique(s)|
    ensures Unique(s)[i] in s && Unique(s)[j] in s && FirstIndex(s, Unique(s)[i]) < FirstIndex(s, Unique(s)[j])
  {
    UniqueKeepsElements(s);
    var front := s[..|s| - 1];
    UniqueKeepsElements(front);
    var a, b := Unique(s)[i], Unique(s)[j];
    if j < |Unique(front)| {
      UniqueKeepsFirstSeenOrder(front, i, j);
      FirstIndexInFront(s, a);
      FirstIndexInFront(s, b);
    } else {
      assert a in front;
      FirstIndexInFront(s, a);
      FirstIndexIs(s, b, |s| - 1);
    }
  }

  lemma {:induction false} FirstIndexIs(s: seq<string>, x: string, i: nat)
    requires i < |s| && s[i] == x && x !in s[..i]
    ensures FirstIndex(s, x) == i
  {
    if i > 0 {
      assert s[0] == s[..i][0];
      assert forall y :: y in s[1..][..i - 1] ==> y in s[..i];
      FirstIndexIs(s[1..], x, i - 1);
    }
  }

  lemma FirstIndexInFront(s: seq<string>, x: string)
    requires s != [] && x in s[..|s| - 1]
    ensures FirstIndex(s, x) == FirstIndex(s[..|s| - 1], x)
  {
    var i := FirstIndex(s[..|s| - 1], x);
    assert s[..|s| - 1][..i] == s[..i];
    FirstIndexIs(s, x, i);
  }

  /* ---------- The names a migration targets ---------- */

  function TenantPrefixes(tenants: seq<Tenant>): (r: seq<string>)
    ensures |r| == |tenants|
    ensures forall i :: 0 <= i < |r| ==> r[i] == NormalizeIndexPrefix(tenants[i].key)
  {
    seq(|tenants|, i requires 0 <= i < |tenants| => NormalizeIndexPrefix(tenants[i].key))
  }

  function TenantsOf(tenants: Option<seq<Tenant>>): seq<Tenant> {
    if tenants.None? then [] else tenants.value
  }

  function Bases(base: string, suffix: string): seq<string> {
    if suffix == "" then [base] else [Suffixed(base, suffix), base]
  }

  function Prefixes(configured: string, tenants: Option<seq<Tenant>>): seq<string> {
    if configured != "" then [configured] else Unique([""] + TenantPrefixes(TenantsOf(tenants)))
  }

  /** Every prefix with every base, prefix by prefix. */
  function Product(prefixes: seq<string>, bases: seq<string>): seq<string> {
    if prefixes == [] then [] else Product(prefixes[..|prefixes| - 1], bases) + Under(prefixes[|prefixes| - 1], bases)
  }

  function Under(prefix: string, bases: seq<string>): (r: seq<string>)
    ensures |r| == |bases| && forall i :: 0 <= i < |r| ==> r[i] == prefix + bases[i]
  {
    seq(|bases|, i requires 0 <= i < |bases| => prefix + bases[i])
  }

  function TargetNames(base: string, suffix: string, configured: string, tenants: Option<seq<Tenant>>): seq<string> {
    Unique(Product(Prefixes(configured, tenants), Bases(base, suffix)))
  }

  method MigrationIndexNames(base: string, suffix: string, configured: string, tenants: Option<seq<Tenant>>)
    returns (names: seq<string>)
    ensures names == TargetNames(base, suffix, configured, tenants)
  {
    var bases := [base];
    if suffix != "" {
      bases := [base + "_" + suffix] + bases;
    }
    var prefixes: seq<string>;
    if configured != "" {
      prefixes := [configured];
    } else {
      prefixes := FanOut(TenantsOf(tenants));
    }
    assert bases == Bases(base, suffix);
    names := CrossJoin(prefixes, bases);
  }

  lemma EmptyProduct(prefixes: seq<string>, bases: seq<string>)
    requires prefixes == []
    ensures Product(prefixes, bases) == []
  {
  }

  lemma NothingAdded(before: seq<string>, s: seq<string>)
    ensures before + s[..0] == before && s[..|s|] == s
  {
  }

  method CrossJoin(prefixes: seq<string>, bases: seq<string>) returns (names: seq<string>)
    ensures names == Unique(Product(prefixes, bases))
  {
    names := [];
    EmptyProduct(prefixes[..0], bases);
    assert names == Unique(Product(prefixes[..0], bases));
    hide *;
    for i := 0 to |prefixes|
      invariant names == Unique(Product(prefixes[..i], bases))
    {
      ghost var before, under := Product(prefixes[..i], bases), Under(prefixes[i], bases);
      NothingAdded(before, under);
      for j := 0 to |bases|
        invariant names == Unique(before + under[..j])
      {
        var name := prefixes[i] + bases[j];
        UniqueExtend(before, under, j);
        if name !in names {
          names := names + [name];
        }
      }
      ProductStep(prefixes, bases, i);
    }
    assert prefixes[..|prefixes|] == prefixes;
  }

  lemma ProductStep(prefixes: seq<string>, bases: seq<string>, i: nat)
    requires i < |prefixes|
    ensures Product(prefixes[..i + 1], bases) == Product(prefixes[..i], bases) + Under(prefixes[i], bases)
  {
    assert prefixes[..i + 1][..i] == prefixes[..i];
  }

  /** The unprefixed name first, then one prefix per tenant key, in map order. */
  method FanOut(tenants: seq<Tenant>) returns (prefixes: seq<string>)
    ensures prefixes == Unique([""] + TenantPrefixes(tenants))
  {
    prefixes := [""];
    assert prefixes == Unique([""] + TenantPrefixes(tenants)[..0]) by {
      UniqueAppend([], "");
      assert [""] + TenantPrefixes(tenants)[..0] == [] + [""];
    }
    hide Unique, NormalizeIndexPrefix;
    for i := 0 to |tenants|
      invariant prefixes == Unique([""] + TenantPrefixes(tenants)[..i])
    {
      var prefix := NormalizeIndexPrefix(tenants[i].key);
      UniqueExtend([""], TenantPrefixes(tenants), i);
      if prefix !in prefixes {
        prefixes := prefixes + [prefix];
      }
    }
    assert TenantPrefixes(tenants)[..|tenants|] == TenantPrefixes(tenants);
  }

  /** The product goes through the bases of the first prefix, then through those of the second, and so on. */
  lemma {:induction false} ProductAt(prefixes: seq<string>, bases: seq<string>, i: nat, j: nat)
    requires i < |prefixes| && j < |bases|
    ensures |Product(prefixes, bases)| == |prefixes| * |bases|
    ensures 0 <= i * |bases| + j < |prefixes| * |bases|
    ensures Product(prefixes, bases)[i * |bases| + j] == prefixes[i] + bases[j]
  {
    var n, m := |prefixes| - 1, |bases|;
    var front := prefixes[..n];
    assert |prefixes| * m == n * m + m;
    assert Product(prefixes, bases) == Product(front, bases) + Under(prefixes[n], bases);
    hide Product;
    if i < n {
      ProductAt(front, bases, i, j);
    } else if n > 0 {
      ProductAt(front, bases, 0, 0);
    } else {
      EmptyProduct(front, bases);
    }
  }

  lemma {:induction false} ProductMembers(prefixes: seq<string>, bases: seq<string>, name: string)
    ensures name in Product(prefixes, bases) <==> exists p, b :: p in prefixes && b in bases && name == p + b
  {
    if prefixes != [] {
      var front, last := prefixes[..|prefixes| - 1], prefixes[|prefixes| - 1];
      ProductMembers(front, bases, name);
      assert prefixes == front + [last];
      if p, b :| p in prefixes && b in bases && name == p + b {
        if p == last {
          var i :| 0 <= i < |bases| && bases[i] == b;
          assert Under(last, bases)[i] == name;
        }
      }
    }
  }

  /** The prefixes under which a deployment with these options saves anything. */
  ghost predicate IsOwnPrefix(prefix: string, configured: string, tenants: Option<seq<Tenant>>) {
    if configured != "" then prefix == configured
    else prefix == "" || exists t :: t in TenantsOf(tenants) && prefix == NormalizeIndexPrefix(t.key)
  }

  lemma PrefixesAreOwn(prefix: string, configured: string, tenants: Option<seq<Tenant>>)
    ensures prefix in Prefixes(configured, tenants) <==> IsOwnPrefix(prefix, configured, tenants)
  {
    if configured == "" {
      var all := TenantPrefixes(TenantsOf(tenants));
      UniqueKeepsElements([""] + all);
      assert prefix in Prefixes(configured, tenants) <==> prefix == "" || prefix in all;
      if t :| t in TenantsOf(tenants) && prefix == NormalizeIndexPrefix(t.key) {
        var i :| 0 <= i < |TenantsOf(tenants)| && TenantsOf(tenants)[i] == t;
        assert all[i] == prefix;
      }
    }
  }

  /** Exactly the deployment's own prefixes, each with the suffixed and with the bare base name; each name once. */
  lemma TargetsAreOwnNames(base: string, suffix: string, configured: string, tenants: Option<seq<Tenant>>, name: string)
    ensures NoDuplicates(TargetNames(base, suffix, configured, tenants))
    ensures name in TargetNames(base, suffix, configured, tenants) <==>
      exists p :: IsOwnPrefix(p, configured, tenants) && (name == p + Suffixed(base, suffix) || name == p + base)
  {
    var prefixes, bases := Prefixes(configured, tenants), Bases(base, suffix);
    UniqueKeepsElements(Product(prefixes, bases));
    ProductMembers(prefixes, bases, name);
    if p, b :| p in prefixes && b in bases && name == p + b {
      PrefixesAreOwn(p, configured, tenants);
    }
    if p :| IsOwnPrefix(p, configured, tenants) && (name == p + Suffixed(base, suffix) || name == p + base) {
      PrefixesAreOwn(p, configured, tenants);
      assert base in bases && Suffixed(base, suffix) in bases;
    }
  }

  /** A report is always saved under one of the deployment's own prefixes. */
  lemma SavePrefixIsOwn(
    configured: string, tenants: Option<seq<Tenant>>, report: Report, baseDomain: string -> Option<string>
  )
    ensures IsOwnPrefix(SavePrefix(configured, tenants, report, baseDomain), configured, tenants)
  {
    if configured == "" && GetIndexPrefix(tenants, report, baseDomain).Some? {
      var domain := Lower(baseDomain(ReportDomain(report)).value);
      TenantPrefixIsFirstMatch(tenants.value, domain);
      var i :| 0 <= i < |tenants.value| &&
        TenantPrefix(tenants.value, domain).value == NormalizeIndexPrefix(tenants.value[i].key);
      assert tenants.value[i] in TenantsOf(tenants);
    }
  }

  ghost predicate Covered(index: string, names: seq<string>) {
    exists name :: name in names && name <= index
  }

  lemma OwnNamesAreTargets(base: string, suffix: string, configured: string, tenants: Option<seq<Tenant>>,
      prefix: string)
    requires IsOwnPrefix(prefix, configured, tenants)
    ensures prefix + base in TargetNames(base, suffix, configured, tenants)
    ensures prefix + Suffixed(base, suffix) in TargetNames(base, suffix, configured, tenants)
  {
    hide IsOwnPrefix, TargetNames, Suffixed;
    TargetsAreOwnNames(base, suffix, configured, tenants, prefix + base);
    TargetsAreOwnNames(base, suffix, configured, tenants, prefix + Suffixed(base, suffix));
  }

  /** What is saved under a name starts with it; a name without its suffix comes before the suffix. */
  lemma SavedIndexStarts(prefix: string, base: string, suffix: string, date: string)
    ensures prefix + base <= SavedIndex(prefix, base, suffix, date)
    ensures SavedIndex(prefix, base, suffix, date) == prefix + Suffixed(base, suffix) + "-" + date
  {
  }

  /**
   Every index the save path can build has a target name as a prefix, so the pattern `name*` reaches it;
   so do the indexes the same deployment wrote with no suffix or with another one.
   */
  lemma SavedIndexesAreCovered(
    base: string, suffix: string, configured: string, tenants: Option<seq<Tenant>>,
    report: Report, baseDomain: string -> Option<string>, otherSuffix: string, date: string
  )
    ensures var names := TargetNames(base, suffix, configured, tenants);
      var prefix := SavePrefix(configured, tenants, report, baseDomain);
      && Covered(SavedIndex(prefix, base, otherSuffix, date), names)
      && var own := if suffix == "" then prefix + base else prefix + base + "_" + suffix;
      && own in names && SavedIndex(prefix, base, suffix, date) == own + "-" + date
  {
    var names := TargetNames(base, suffix, configured, tenants);
    var prefix := SavePrefix(configured, tenants, report, baseDomain);
    hide TargetNames, SavePrefix, IsOwnPrefix, Suffixed, SavedIndex;
    SavePrefixIsOwn(configured, tenants, report, baseDomain);
    OwnNamesAreTargets(base, suffix, configured, tenants, prefix);
    SavedIndexStarts(prefix, base, otherSuffix, date);
    SavedIndexStarts(prefix, base, suffix, date);
    SuffixedShape(prefix, base, suffix);
  }

  /** With a configured prefix a migration touches no pattern outside it. */
  lemma ConfiguredPrefixConfines(base: string, suffix: string, configured: string, tenants: Option<seq<Tenant>>,
      index: string)
    requires configured != "" && Covered(index, TargetNames(base, suffix, configured, tenants))
    ensures configured + base <= index
  {
    var name :| name in TargetNames(base, suffix, configured, tenants) && name <= index;
    TargetsAreOwnNames(base, suffix, configured, tenants, name);
    assert configured + base <= name;
  }

  lemma OnePrefix(configured: string, tenants: Option<seq<Tenant>>, bases: seq<string>)
    requires configured != "" || tenants.None?
    ensures Prefixes(configured, tenants) == [configured]
    ensures Product([configured], bases) == Under(configured, bases)
  {
    UniqueAppend([], "");
    assert [""] + TenantPrefixes([]) == [] + [""];
    ProductStep([configured], bases, 0);
    assert [configured][..1] == [configured] && Product([configured][..0], bases) == [];
  }

  lemma UniqueOfTwo(a: string, b: string)
    ensures Unique([a]) == [a]
    ensures a != b ==> Unique([a, b]) == [a, b]
  {
    UniqueAppend([], a);
    UniqueAppend([a], b);
    assert [] + [a] == [a] && [a] + [b] == [a, b];
  }

  /** Under a configured prefix, or without tenants, the targets are the suffixed and the bare base name, in order. */
  lemma TargetsUnderOnePrefix(base: string, suffix: string, configured: string, tenants: Option<seq<Tenant>>)
    requires configured != "" || tenants.None?
    ensures TargetNames(base, suffix, configured, tenants) ==
      if suffix == "" then [configured + base] else [configured + base + "_" + suffix, configured + base]
  {
    var bases := Bases(base, suffix);
    var under := Under(configured, bases);
    OnePrefix(configured, tenants, bases);
    SuffixedShape(configured, base, suffix);
    UniqueOfTwo(under[0], configured + base);
    hide Unique, Product, Prefixes, Suffixed;
    if suffix == "" {
      assert under == [configured + base];
    } else {
      assert under == [configured + base + "_" + suffix, configured + base];
    }
  }

  /** Without options the only target is the base name itself. */
  lemma NothingConfigured(base: string)
    ensures TargetNames(base, "", "", None) == [base]
  {
    TargetsUnderOnePrefix(base, "", "", None);
    assert "" + base == base;
  }
}

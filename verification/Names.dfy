/**
 Kubernetes names derived from project names: the worker's one-pass byte loop against the
 API's chain of regular expressions, and the names built on top of it.
 */
module Names {

  const MAX_LABEL: nat := 63

  predicate IsDigit(c: char) { '0' <= c <= '9' }

  predicate IsLower(c: char) { 'a' <= c <= 'z' }

  predicate IsAlnum(c: char) { IsLower(c) || IsDigit(c) }

  function LowerChar(c: char): char {
    if 'A' <= c <= 'Z' then (c as int + 32) as char else c
  }

  function ToLower(s: string): string {
    if s == [] then [] else ToLower(s[..|s| - 1]) + [LowerChar(s[|s| - 1])]
  }

  // ---------------------------------------------------------------------
  // The simple form: UrlUtils.sanitize
  // ---------------------------------------------------------------------

  // .replace(/[^a-z0-9-]/g, "-")
  function DashOthers(s: string): string {
    if s == [] then []
    else
      var c := s[|s| - 1];
      DashOthers(s[..|s| - 1]) + [if IsAlnum(c) then c else '-']
  }

  function DropDashes(s: string): (r: string)
    ensures |r| <= |s|
  {
    if s != [] && s[0] == '-' then DropDashes(s[1..]) else s
  }

  // .replace(/-+/g, "-")
  function Collapse(s: string): string
    decreases |s|
  {
    if s == [] then []
    else if s[0] == '-' then "-" + Collapse(DropDashes(s[1..]))
    else [s[0]] + Collapse(s[1..])
  }

  function DropLeading(s: string): string {
    if s != [] && s[0] == '-' then s[1..] else s
  }

  // strings.TrimSuffix(s, "-")
  function DropTrailing(s: string): string {
    if s != [] && s[|s| - 1] == '-' then s[..|s| - 1] else s
  }

  // .replace(/^-|-$/g, "")
  function Strip(s: string): string {
    DropTrailing(DropLeading(s))
  }

  function UrlSanitize(s: string): string {
    Strip(Collapse(DashOthers(ToLower(s))))
  }

  // ---------------------------------------------------------------------
  // The label built from it
  // ---------------------------------------------------------------------

  function Take(s: string, n: nat): string {
    if |s| <= n then s else s[..n]
  }

  function TrimDashes(s: string): string {
    if s != [] && s[|s| - 1] == '-' then TrimDashes(s[..|s| - 1]) else s
  }

  function EnsureLetter(s: string): string {
    if s == [] then "app" else if IsDigit(s[0]) then "a" + s else s
  }

  // Truncated to 63 bytes and freed of a trailing dash, before the letter is ensured.
  function Core(name: string): string {
    TrimDashes(Take(UrlSanitize(name), MAX_LABEL))
  }

  function K8sName(name: string): string {
    EnsureLetter(Core(name))
  }

  // ---------------------------------------------------------------------
  // What the byte loop has produced after a prefix of the name
  // ---------------------------------------------------------------------

  ghost function Stream(low: string): string {
    DropLeading(Collapse(DashOthers(low)))
  }

  predicate EndsOpen(s: string) {
    s == [] || s[|s| - 1] == '-'
  }

  lemma {:induction false} CollapseSnoc(s: string, c: char)
    ensures Collapse(s + [c])
            == if c == '-' && Collapse(s) != [] && EndsOpen(Collapse(s)) then Collapse(s) else Collapse(s) + [c]
    decreases |s|
  {
    if s == [] {
      assert s + [c] == [c];
      assert DropDashes([]) == [];
    } else if s[0] == '-' {
      DropDashesSnoc(s[1..], c);
      assert (s + [c])[1..] == s[1..] + [c];
      var rest := DropDashes(s[1..]);
      if rest == [] && c == '-' {
        assert DropDashes(s[1..] + [c]) == [];
      } else {
        CollapseSnoc(rest, c);
        NoLeadingDash(s[1..]);
        if rest != [] { CollapseHead(rest); }
      }
    } else {
      assert (s + [c])[1..] == s[1..] + [c];
      CollapseSnoc(s[1..], c);
    }
  }

  lemma {:induction false} DropDashesSnoc(s: string, c: char)
    ensures DropDashes(s + [c]) == if DropDashes(s) == [] && c == '-' then [] else DropDashes(s) + [c]
    decreases |s|
  {
    if s == [] {
      assert s + [c] == [c];
    } else if s[0] == '-' {
      assert (s + [c])[1..] == s[1..] + [c];
      DropDashesSnoc(s[1..], c);
    }
  }

  lemma {:induction false} NoLeadingDash(s: string)
    ensures DropDashes(s) != [] ==> DropDashes(s)[0] != '-'
    decreases |s|
  {
    if s != [] && s[0] == '-' { NoLeadingDash(s[1..]); }
  }

  lemma CollapseHead(s: string)
    requires s != []
    ensures Collapse(s) != [] && Collapse(s)[0] == s[0]
  {
  }

  lemma DropLeadingSnoc(t: string, d: char)
    ensures DropLeading(t + [d]) == if t != [] then DropLeading(t) + [d] else if d == '-' then [] else [d]
    ensures EndsOpen(DropLeading(t)) == EndsOpen(t)
  {
    if t != [] { assert (t + [d])[1..] == t[1..] + [d]; }
  }

  lemma DashOthersSnoc(low: string, c: char)
    ensures DashOthers(low + [c]) == DashOthers(low) + [if IsAlnum(c) then c else '-']
  {
    assert (low + [c])[..|low|] == low;
  }

  // One more byte of the name appends it, appends a dash, or changes nothing.
  lemma StreamSnoc(low: string, c: char)
    ensures Stream(low + [c])
            == if IsAlnum(c) then Stream(low) + [c]
               else if EndsOpen(Stream(low)) then Stream(low) else Stream(low) + ['-']
  {
    var d := if IsAlnum(c) then c else '-';
    DashOthersSnoc(low, c);
    CollapseSnoc(DashOthers(low), d);
    DropLeadingSnoc(Collapse(DashOthers(low)), d);
  }

  lemma {:induction false} StreamGrows(low: string, i: nat)
    requires i <= |low|
    ensures Stream(low[..i]) <= Stream(low)
    decreases |low|
  {
    if i == |low| {
      assert low[..i] == low;
    } else {
      var m := |low| - 1;
      StreamGrows(low[..m], i);
      assert low[..m][..i] == low[..i];
      assert low == low[..m] + [low[m]];
      StreamSnoc(low[..m], low[m]);
    }
  }

  lemma StreamNext(low: string, i: nat)
    requires i < |low|
    ensures var before, after := Stream(low[..i]), Stream(low[..i + 1]);
            after == if IsAlnum(low[i]) then before + [low[i]]
                     else if EndsOpen(before) then before else before + ['-']
  {
    StreamSnoc(low[..i], low[i]);
    assert low[..i + 1] == low[..i] + [low[i]];
  }

  lemma StreamIsCut(low: string, i: nat, result: string)
    requires i <= |low| && result == Stream(low[..i]) && |result| <= MAX_LABEL
    requires i == |low| || |result| == MAX_LABEL
    ensures result == Take(Stream(low), MAX_LABEL)
  {
    StreamGrows(low, i);
    assert low[..|low|] == low;
  }

  // Dropping a final dash before the cut at n changes nothing that the trimming would keep.
  lemma TrimAfterCut(t: string, n: nat)
    ensures TrimDashes(Take(DropTrailing(t), n)) == TrimDashes(Take(t, n))
  {
    if |t| > n {
      assert Take(DropTrailing(t), n) == Take(t, n);
    }
  }

  // sanitizeK8sName: the byte loop computes the label of the simple form.
  method SanitizeK8sName(name: string) returns (r: string)
    ensures r == K8sName(name)
  {
    var low := ToLower(name);
    var result: string := [];
    var lastWasDash := true;
    var i := 0;
    assert Stream([]) == [];
    while i < |low| && |result| < MAX_LABEL
      invariant 0 <= i <= |low|
      invariant result == Stream(low[..i]) && |result| <= MAX_LABEL
      invariant lastWasDash == EndsOpen(result)
    {
      var c := low[i];
      StreamNext(low, i);
      if IsAlnum(c) {
        result := result + [c];
        lastWasDash := false;
      } else if !lastWasDash {
        result := result + ['-'];
        lastWasDash := true;
      }
      i := i + 1;
    }
    StreamIsCut(low, i, result);
    ghost var cut := result;
    while result != [] && result[|result| - 1] == '-'
      invariant TrimDashes(result) == TrimDashes(cut)
      decreases |result|
    {
      result := result[..|result| - 1];
    }
    assert result == TrimDashes(cut);
    TrimAfterCut(Stream(low), MAX_LABEL);
    if result != [] && IsDigit(result[0]) {
      result := ['a'] + result;
    }
    if |result| == 0 {
      result := "app";
    }
    return result;
  }

  // ---------------------------------------------------------------------
  // The shape of the results
  // ---------------------------------------------------------------------

  // Lower-case alphanumerics and single inner dashes.
  ghost predicate Dashed(s: string) {
    && (forall i :: 0 <= i < |s| ==> IsAlnum(s[i]) || s[i] == '-')
    && (forall i :: 0 <= i < |s| - 1 ==> s[i] != '-' || s[i + 1] != '-')
    && (s != [] ==> s[0] != '-')
  }

  // A label in the sense of section 2.3.1 of RFC 1035, apart from its length.
  ghost predicate LabelShape(s: string) {
    && s != []
    && IsLower(s[0])
    && IsAlnum(s[|s| - 1])
    && forall i :: 0 <= i < |s| ==> IsAlnum(s[i]) || s[i] == '-'
  }

  ghost predicate IsLabel(s: string) {
    LabelShape(s) && |s| <= MAX_LABEL
  }

  lemma {:induction false} StreamDashed(low: string)
    ensures Dashed(Stream(low))
    decreases |low|
  {
    if low != [] {
      var m := |low| - 1;
      StreamDashed(low[..m]);
      StreamSnoc(low[..m], low[m]);
      assert low == low[..m] + [low[m]];
    } else {
      assert Stream([]) == [];
    }
  }

  lemma UrlSanitizeClean(x: string)
    ensures Dashed(UrlSanitize(x)) && (UrlSanitize(x) != [] ==> UrlSanitize(x)[|UrlSanitize(x)| - 1] != '-')
  {
    StreamDashed(ToLower(x));
  }

  lemma CoreClean(x: string)
    ensures Dashed(Core(x)) && |Core(x)| <= MAX_LABEL
    ensures Core(x) != [] ==> Core(x)[|Core(x)| - 1] != '-'
  {
    UrlSanitizeClean(x);
    TrimClean(Take(UrlSanitize(x), MAX_LABEL));
  }

  lemma {:induction false} TrimClean(s: string)
    requires Dashed(s)
    ensures Dashed(TrimDashes(s)) && TrimDashes(s) <= s
    ensures TrimDashes(s) != [] ==> TrimDashes(s)[|TrimDashes(s)| - 1] != '-'
    decreases |s|
  {
    if s != [] && s[|s| - 1] == '-' { TrimClean(s[..|s| - 1]); }
  }

  // Every derived name has the shape of a label; it is one exactly when the digit prefix fits.
  lemma K8sNameIsLabel(x: string)
    ensures LabelShape(K8sName(x)) && Dashed(K8sName(x)) && |K8sName(x)| <= MAX_LABEL + 1
    ensures IsLabel(K8sName(x)) <==> !(|Core(x)| == MAX_LABEL && IsDigit(Core(x)[0]))
  {
    CoreClean(x);
    var c, n := Core(x), K8sName(x);
    if c != [] && IsDigit(c[0]) {
      assert n == "a" + c;
      assert forall i :: 0 < i < |n| ==> n[i] == c[i - 1];
    }
  }

  lemma {:induction false} LowerClean(s: string)
    requires forall i :: 0 <= i < |s| ==> IsAlnum(s[i]) || s[i] == '-'
    ensures ToLower(s) == s && DashOthers(s) == s
    decreases |s|
  {
    if s != [] {
      LowerClean(s[..|s| - 1]);
      assert s == s[..|s| - 1] + [s[|s| - 1]];
    }
  }

  lemma {:induction false} StreamOfDashed(s: string)
    requires Dashed(s)
    ensures Stream(s) == s
    decreases |s|
  {
    if s != [] {
      var m := |s| - 1;
      StreamOfDashed(s[..m]);
      StreamSnoc(s[..m], s[m]);
      assert s == s[..m] + [s[m]];
    } else {
      assert Stream([]) == [];
    }
  }

  lemma {:induction false} LowerIsPointwise(s: string)
    ensures |ToLower(s)| == |s| && forall i | 0 <= i < |s| :: ToLower(s)[i] == LowerChar(s[i])
    decreases |s|
  {
    if s != [] { LowerIsPointwise(s[..|s| - 1]); }
  }

  lemma UrlSanitizeFixed(s: string)
    requires Dashed(s) && (s != [] ==> s[|s| - 1] != '-')
    ensures UrlSanitize(s) == s
  {
    LowerClean(s);
    StreamOfDashed(s);
  }

  // A text that is already clean and not too long only gets its letter.
  lemma CleanName(s: string)
    requires Dashed(s) && s != [] && s[|s| - 1] != '-' && |s| <= MAX_LABEL
    ensures K8sName(s) == if IsDigit(s[0]) then "a" + s else s
  {
    UrlSanitizeFixed(s);
  }

  function Repeat(c: char, n: nat): string {
    seq(n, _ => c)
  }

  // A project named by 63 zeros: its derived name has 64 bytes.
  lemma ZerosNameTooLong()
    ensures var n := K8sName(Repeat('0', 63));
            n == "a" + Repeat('0', 63) && |n| == MAX_LABEL + 1 && K8sName(n) == "a" + Repeat('0', 62) != n
  {
    var zeros := Repeat('0', 63);
    CleanName(zeros);
    SanitizedTwice(zeros);
    CutZeros("a" + zeros);
  }

  lemma CutZeros(n: string)
    requires n == "a" + Repeat('0', 63)
    ensures DropTrailing(Take(n, MAX_LABEL)) == "a" + Repeat('0', 62)
  {
    assert n[..63] == "a" + Repeat('0', 62);
  }

  // Sanitizing a derived name again cuts it to 63 bytes and drops a dash at the cut.
  lemma SanitizedTwice(x: string)
    ensures K8sName(K8sName(x)) == DropTrailing(Take(K8sName(x), MAX_LABEL))
  {
    var n := K8sName(x);
    K8sNameIsLabel(x);
    UrlSanitizeFixed(n);
    var t := Take(n, MAX_LABEL);
    TrimOne(t);
    TrimClean(t);
    assert n[0] == t[0];
  }

  // Sanitizing twice is sanitizing once exactly when the name fits in 63 bytes.
  lemma Idempotent(x: string)
    ensures K8sName(K8sName(x)) == K8sName(x) <==> |K8sName(x)| <= MAX_LABEL
  {
    var n := K8sName(x);
    K8sNameIsLabel(x);
    UrlSanitizeFixed(n);
    if |n| <= MAX_LABEL {
      assert K8sName(n) == n;
    } else {
      assert n == "a" + Core(x);
      TrimClean(Take(n, MAX_LABEL));
    }
  }

  // ---------------------------------------------------------------------
  // Names with a suffix
  // ---------------------------------------------------------------------

  // buildNameWithSuffix
  function NameWithSuffix(appName: string, suffix: string): string {
    var base := if appName == "" then "app" else appName;
    if |base| + |suffix| <= MAX_LABEL then DropTrailing(base) + suffix
    else if MAX_LABEL - |suffix| < 1 then suffix[|suffix| - MAX_LABEL..]
    else
      var trimmed := DropTrailing(base[..MAX_LABEL - |suffix|]);
      (if trimmed == "" then "app" else trimmed) + suffix
  }

  function ServiceAccountName(appName: string): string {
    NameWithSuffix(appName, "-sa")
  }

  function PolicyName(appName: string): string {
    NameWithSuffix(appName, "-netpol")
  }

  // The part of an application name that survives in a name with the given suffix.
  function Kept(n: string, suffix: string): string
    requires |suffix| < MAX_LABEL
  {
    DropTrailing(Take(n, MAX_LABEL - |suffix|))
  }

  predicate PlatformSuffix(suffix: string) {
    suffix == "-sa" || suffix == "-netpol"
  }

  lemma SuffixedIsKept(x: string, suffix: string)
    requires PlatformSuffix(suffix)
    ensures NameWithSuffix(K8sName(x), suffix) == Kept(K8sName(x), suffix) + suffix
    ensures Kept(K8sName(x), suffix) != [] && LabelShape(Kept(K8sName(x), suffix))
  {
    var n := K8sName(x);
    K8sNameIsLabel(x);
    var t := Take(n, MAX_LABEL - |suffix|);
    var k := DropTrailing(t);
    assert |t| >= 1 && t[0] == n[0];
    assert |t| == 1 ==> t[0] != '-';
    assert k[0] == n[0];
    if t[|t| - 1] == '-' {
      assert n[|t| - 2] == t[|t| - 2] == k[|k| - 1];
    }
  }

  // Service-account and policy names of derived names are labels, of at most 63 bytes, always.
  lemma SuffixedIsLabel(x: string, suffix: string)
    requires PlatformSuffix(suffix)
    ensures IsLabel(NameWithSuffix(K8sName(x), suffix))
  {
    SuffixedIsKept(x, suffix);
    if suffix == "-sa" {
      LabelConcat(Kept(K8sName(x), suffix), "-sa");
    } else {
      LabelConcat(Kept(K8sName(x), suffix), "-netpol");
    }
  }

  lemma LabelConcat(k: string, suffix: string)
    requires LabelShape(k) && suffix != [] && IsAlnum(suffix[|suffix| - 1])
    requires forall i :: 0 <= i < |suffix| ==> IsAlnum(suffix[i]) || suffix[i] == '-'
    ensures LabelShape(k + suffix)
  {
    var r := k + suffix;
    assert r[|r| - 1] == suffix[|suffix| - 1];
  }

  // Two applications share a suffixed name exactly when their names agree on the part that is kept.
  lemma SuffixedCollision(x: string, y: string, suffix: string)
    requires PlatformSuffix(suffix)
    ensures NameWithSuffix(K8sName(x), suffix) == NameWithSuffix(K8sName(y), suffix)
            <==> Kept(K8sName(x), suffix) == Kept(K8sName(y), suffix)
  {
    SuffixedIsKept(x, suffix);
    SuffixedIsKept(y, suffix);
    var a, b := Kept(K8sName(x), suffix), Kept(K8sName(y), suffix);
    if a + suffix == b + suffix {
      assert a == (a + suffix)[..|a + suffix| - |suffix|];
      assert b == (b + suffix)[..|b + suffix| - |suffix|];
    }
  }

  // What a long remainder says about the first 56 bytes; a short one is the whole name.
  lemma KeptDetermines(n: string, suffix: string)
    requires suffix in {"", "-sa"} && n != [] && n[|n| - 1] != '-'
    ensures var k := Kept(n, suffix);
            if |k| >= 56 then Take(n, 56) == k[..56] else n == k
  {
  }

  // Derived names that agree on what "-sa" or no suffix leaves agree on the shorter rest as well.
  lemma LongerKeptDecides(x: string, y: string, suffix: string)
    requires suffix in {"", "-sa"}
    ensures Kept(K8sName(x), suffix) == Kept(K8sName(y), suffix)
            ==> Kept(K8sName(x), "-netpol") == Kept(K8sName(y), "-netpol")
  {
    var n, m := K8sName(x), K8sName(y);
    LastNotDash(x);
    LastNotDash(y);
    KeptDetermines(n, suffix);
    KeptDetermines(m, suffix);
  }

  lemma LastNotDash(x: string)
    ensures K8sName(x) != [] && K8sName(x)[|K8sName(x)| - 1] != '-'
  {
    K8sNameIsLabel(x);
  }

  // Hence names of at most 56 bytes never collide, for either suffix.
  lemma SuffixedInjective(x: string, y: string)
    requires |K8sName(x)| <= 56 && |K8sName(y)| <= 56
    ensures ServiceAccountName(K8sName(x)) == ServiceAccountName(K8sName(y)) <==> K8sName(x) == K8sName(y)
    ensures PolicyName(K8sName(x)) == PolicyName(K8sName(y)) <==> K8sName(x) == K8sName(y)
  {
    K8sNameIsLabel(x);
    K8sNameIsLabel(y);
    SuffixedCollision(x, y, "-sa");
    SuffixedCollision(x, y, "-netpol");
  }

  // Sanitizing a derived name again never changes its suffixed names, even when it changes the name.
  lemma SuffixedStable(x: string, suffix: string)
    requires PlatformSuffix(suffix)
    ensures NameWithSuffix(K8sName(K8sName(x)), suffix) == NameWithSuffix(K8sName(x), suffix)
  {
    var n := K8sName(x);
    K8sNameIsLabel(x);
    Idempotent(x);
    if |n| > MAX_LABEL {
      UrlSanitizeFixed(n);
      var m := K8sName(n);
      var t := Take(n, MAX_LABEL);
      TrimClean(t);
      TrimOne(t);
      SuffixedIsKept(x, suffix);
      SuffixedIsKept(n, suffix);
      assert Take(m, MAX_LABEL - |suffix|) == Take(n, MAX_LABEL - |suffix|);
    }
  }

  // Without adjacent dashes, trimming removes at most one.
  lemma TrimOne(s: string)
    requires Dashed(s)
    ensures TrimDashes(s) == DropTrailing(s)
  {
    if s != [] && s[|s| - 1] == '-' {
      assert |s| >= 2 ==> s[|s| - 2] != '-';
    }
  }
}

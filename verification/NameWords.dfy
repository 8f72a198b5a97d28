/** What the derived names say, read off the words of a project name. */
module NameWords {
  import opened Names

  // The ASCII codes of the capital letters are shifted to those of the small ones, nothing else
  // changes; small letters and digits are what a name keeps.
  lemma AsciiCodes(c: char)
    ensures LowerChar(c) as int == if 65 <= c as int <= 90 then c as int + 32 else c as int
    ensures IsDigit(c) <==> 48 <= c as int <= 57
    ensures IsAlnum(c) <==> 97 <= c as int <= 122 || 48 <= c as int <= 57
  {
  }

  // Names that differ in case only get the same derived name.
  lemma CaseInsensitive(x: string, y: string)
    requires |x| == |y| && forall i | 0 <= i < |x| :: LowerChar(x[i]) == LowerChar(y[i])
    ensures UrlSanitize(x) == UrlSanitize(y) && K8sName(x) == K8sName(y)
  {
    LowerIsPointwise(x);
    LowerIsPointwise(y);
    assert ToLower(x) == ToLower(y);
  }

  // The maximal runs of letters and digits, in order.
  function Words(s: string): seq<string> {
    if s == [] then []
    else
      var front, c := s[..|s| - 1], s[|s| - 1];
      var ws := Words(front);
      if !IsAlnum(c) then ws
      else if ws != [] && InWord(front) then ws[..|ws| - 1] + [ws[|ws| - 1] + [c]]
      else ws + [[c]]
  }

  ghost predicate IsWord(w: string) {
    w != [] && forall i | 0 <= i < |w| :: IsAlnum(w[i])
  }

  lemma LongerIsWord(w: string, c: char)
    requires IsWord(w) && IsAlnum(c)
    ensures IsWord(w + [c])
  {
  }

  predicate InWord(s: string) {
    s != [] && IsAlnum(s[|s| - 1])
  }

  // The words with a dash between any two.
  function Dashes(words: seq<string>): string {
    if words == [] then []
    else if |words| == 1 then words[0]
    else Dashes(words[..|words| - 1]) + "-" + words[|words| - 1]
  }

  lemma {:induction false} WordsAreWords(s: string)
    ensures forall w | w in Words(s) :: IsWord(w)
    ensures InWord(s) ==> Words(s) != []
    decreases |s|
  {
    if s != [] {
      var front, c := s[..|s| - 1], s[|s| - 1];
      WordsAreWords(front);
      var ws := Words(front);
      if IsAlnum(c) && ws != [] && InWord(front) {
        LongerIsWord(ws[|ws| - 1], c);
      }
    }
  }

  lemma NewWord(words: seq<string>, c: char)
    ensures Dashes(words + [[c]]) == if words == [] then [c] else Dashes(words) + ['-', c]
  {
    assert (words + [[c]])[..|words|] == words;
  }

  lemma LongerWord(words: seq<string>, c: char)
    requires words != []
    ensures Dashes(words[..|words| - 1] + [words[|words| - 1] + [c]]) == Dashes(words) + [c]
  {
    var m := |words| - 1;
    var longer := words[..m] + [words[m] + [c]];
    assert longer[..m] == words[..m];
  }

  lemma {:induction false} DashesShape(words: seq<string>)
    requires words != []
    requires forall w | w in words :: IsWord(w)
    ensures Dashes(words) != [] && IsAlnum(Dashes(words)[|Dashes(words)| - 1])
  {
    var last := words[|words| - 1];
    assert last in words && IsWord(last);
    assert Dashes(words)[|Dashes(words)| - 1] == last[|last| - 1];
  }

  // What the byte loop holds: the words so far, and a dash if a word has ended.
  function Held(low: string): string {
    Dashes(Words(low)) + if Words(low) == [] || InWord(low) then "" else "-"
  }

  lemma WordsSnoc(front: string, c: char)
    ensures var ws := Words(front);
            Words(front + [c]) == if !IsAlnum(c) then ws
                                  else if ws != [] && InWord(front) then ws[..|ws| - 1] + [ws[|ws| - 1] + [c]]
                                  else ws + [[c]]
    ensures InWord(front + [c]) <==> IsAlnum(c)
  {
    assert (front + [c])[..|front|] == front;
  }

  lemma HeldInWord(front: string)
    ensures EndsOpen(Held(front)) <==> !InWord(front)
    ensures InWord(front) ==> Words(front) != [] && Held(front) == Dashes(Words(front))
  {
    WordsAreWords(front);
    if Words(front) != [] { DashesShape(Words(front)); }
  }

  lemma HeldSeparator(front: string, c: char)
    requires !IsAlnum(c)
    ensures Held(front + [c]) == if EndsOpen(Held(front)) then Held(front) else Held(front) + ['-']
  {
    WordsSnoc(front, c);
    HeldInWord(front);
  }

  lemma HeldLetter(front: string, c: char)
    requires IsAlnum(c)
    ensures Held(front + [c]) == Held(front) + [c]
  {
    WordsSnoc(front, c);
    HeldInWord(front);
    if InWord(front) {
      LongerWord(Words(front), c);
    } else {
      NewWord(Words(front), c);
    }
  }

  lemma {:induction false} StreamIsWords(low: string)
    ensures Stream(low) == Held(low)
    decreases |low|
  {
    if low == [] {
      assert Stream([]) == [];
    } else {
      var front, c := low[..|low| - 1], low[|low| - 1];
      assert low == front + [c];
      StreamIsWords(front);
      StreamSnoc(front, c);
      if IsAlnum(c) { HeldLetter(front, c); } else { HeldSeparator(front, c); }
    }
  }

  // UrlUtils.sanitize joins the words of the lower-cased name by single dashes.
  lemma SanitizedIsWords(x: string)
    ensures UrlSanitize(x) == Dashes(Words(ToLower(x)))
  {
    var low := ToLower(x);
    StreamIsWords(low);
    WordsAreWords(low);
    if Words(low) != [] { DashesShape(Words(low)); }
  }

  // sanitizeK8sName is that text, cut to 63 bytes without a dash at the cut, with an "a" before a
  // digit; a name without words becomes "app".
  lemma DerivedIsWords(x: string)
    ensures var joined := Dashes(Words(ToLower(x)));
            var cut := if |joined| <= 63 then joined
                       else if joined[62] == '-' then joined[..62] else joined[..63];
            K8sName(x) == if joined == "" then "app" else if '0' <= cut[0] <= '9' then "a" + cut else cut
  {
    var joined := Dashes(Words(ToLower(x)));
    SanitizedIsWords(x);
    UrlSanitizeClean(x);
    var t := Take(joined, MAX_LABEL);
    TrimOne(t);
  }

  // The names of the service account and of the policy: the derived name, cut to 60 or 56 bytes
  // without a dash at the cut, and the suffix.
  lemma SuffixedNames(x: string)
    ensures var n := K8sName(x);
            && ServiceAccountName(n)
               == (if |n| <= 60 then n else if n[59] == '-' then n[..59] else n[..60]) + "-sa"
            && PolicyName(n) == (if |n| <= 56 then n else if n[55] == '-' then n[..55] else n[..56]) + "-netpol"
  {
    SuffixedIsKept(x, "-sa");
    SuffixedIsKept(x, "-netpol");
    LastNotDash(x);
  }

  // For any name and any suffix the result ends in the suffix, or in the last 63 bytes of it, and has
  // more than 63 bytes exactly when a cut to one byte leaves a dash, for which "app" is put in.
  lemma SuffixedLength(appName: string, suffix: string)
    ensures var r := NameWithSuffix(appName, suffix);
            var tail := if |suffix| <= 63 then suffix else suffix[|suffix| - 63..];
            && |r| >= |tail| && r[|r| - |tail|..] == tail
            && (|r| > 63 <==> |suffix| == 62 && |appName| >= 2 && appName[0] == '-')
            && NameWithSuffix("", suffix) == NameWithSuffix("app", suffix)
  {
  }
}

/** The name of a mutant directory, and the pattern that reads the original file back from it. */
module Names {
  import opened Options
  import opened Sequences
  import opened Text
  import opened Mutators

  // ----- printing -----

  function Digit(d: nat): char
    requires d < 10
  {
    "0123456789"[d]
  }

  /** `%d` of a natural number. */
  function Decimal(n: nat): (s: string)
    ensures |s| >= 1
  {
    if n < 10 then [Digit(n)] else Decimal(n / 10) + [Digit(n % 10)]
  }

  lemma {:induction false} DecimalDigits(n: nat)
    ensures forall k | 0 <= k < |Decimal(n)| :: IsDigit(Decimal(n)[k])
  {
    if n >= 10 {
      DecimalDigits(n / 10);
    }
  }

  predicate IsDigit(c: char) {
    '0' <= c <= '9'
  }

  /** `strings.Replace(operatorName, "/", "-", -1)`. */
  function SafeName(operatorName: string): (s: string)
    ensures |s| == |operatorName|
  {
    if operatorName == [] then []
    else [if operatorName[0] == '/' then '-' else operatorName[0]] + SafeName(operatorName[1..])
  }

  /** Only slashes change, each in its place. */
  lemma {:induction false} SafeNameAt(operatorName: string, k: nat)
    requires k < |operatorName|
    ensures SafeName(operatorName)[k] == if operatorName[k] == '/' then '-' else operatorName[k]
  {
    if k > 0 {
      SafeNameAt(operatorName[1..], k - 1);
    }
  }

  function Suffix(operatorName: string, id: nat): string {
    "." + SafeName(operatorName) + "." + Decimal(id)
  }

  function BuildMutantName(operatorName: string, filePath: string, id: nat): string {
    filePath + Suffix(operatorName, id)
  }

  // ----- distinct mutants have distinct names -----

  function DecimalValue(s: string): nat
    requires forall k | 0 <= k < |s| :: IsDigit(s[k])
  {
    if s == [] then 0 else assert IsDigit(s[|s| - 1]); 10 * DecimalValue(s[..|s| - 1]) + (s[|s| - 1] - '0') as nat
  }

  lemma {:induction false} DecimalRoundTrip(n: nat)
    ensures forall k | 0 <= k < |Decimal(n)| :: IsDigit(Decimal(n)[k])
    ensures DecimalValue(Decimal(n)) == n
  {
    DecimalDigits(n);
    if n >= 10 {
      DecimalRoundTrip(n / 10);
      var s := Decimal(n);
      assert s[..|s| - 1] == Decimal(n / 10);
    }
  }

  /** No zero leads a number of several digits. */
  lemma {:induction false} DecimalLeads(n: nat)
    ensures |Decimal(n)| > 1 ==> Decimal(n)[0] != '0'
    ensures n > 0 ==> Decimal(n)[0] != '0'
  {
    if n >= 10 {
      DecimalLeads(n / 10);
    }
  }

  lemma DigitOf(c: char)
    requires IsDigit(c)
    ensures 0 <= c as int - '0' as int < 10 && Digit((c - '0') as nat) == c
    ensures c != '0' ==> (c - '0') as nat > 0
  {
    assert "0123456789"[(c - '0') as int] == c;
  }

  /** One more digit at the end. */
  lemma DecimalSnoc(n: nat, d: nat)
    requires n > 0 && d < 10
    ensures Decimal(10 * n + d) == Decimal(n) + [Digit(d)]
  {
    assert (10 * n + d) / 10 == n && (10 * n + d) % 10 == d;
  }

  /** It is the only way to write the number without a leading zero. */
  lemma {:induction false} DecimalUnique(s: string)
    requires s != "" && (forall k | 0 <= k < |s| :: IsDigit(s[k])) && (|s| > 1 ==> s[0] != '0')
    ensures Decimal(DecimalValue(s)) == s
    ensures s[0] != '0' ==> DecimalValue(s) > 0
  {
    var n := |s| - 1;
    assert s == s[..n] + [s[n]];
    if n > 0 {
      DecimalUnique(s[..n]);
      LastDigit(s[..n], s[n]);
    } else {
      OneDigit(s);
    }
  }

  lemma OneDigit(s: string)
    requires |s| == 1 && IsDigit(s[0])
    ensures Decimal(DecimalValue(s)) == s && (s[0] != '0' ==> DecimalValue(s) > 0)
  {
    DigitOf(s[0]);
    assert s == [s[0]] && s[..0] == [];
    assert DecimalValue(s) == (s[0] - '0') as nat;
  }

  predicate AllDigits(s: string) {
    forall k | 0 <= k < |s| :: IsDigit(s[k])
  }

  lemma ValueSnoc(front: string, c: char) returns (d: nat)
    requires AllDigits(front) && IsDigit(c)
    ensures AllDigits(front + [c]) && d < 10 && Digit(d) == c
    ensures DecimalValue(front + [c]) == 10 * DecimalValue(front) + d
  {
    var s := front + [c];
    assert s[..|s| - 1] == front && s[|s| - 1] == c;
    DigitOf(c);
    d := (c - '0') as nat;
  }

  lemma LastDigit(front: string, c: char)
    requires AllDigits(front) && IsDigit(c) && Decimal(DecimalValue(front)) == front && DecimalValue(front) > 0
    ensures AllDigits(front + [c])
    ensures Decimal(DecimalValue(front + [c])) == front + [c] && DecimalValue(front + [c]) > 0
  {
    var d := ValueSnoc(front, c);
    DecimalSnoc(DecimalValue(front), d);
  }

  lemma DotInTail(a: string, b: string, c: string, d: string)
    requires a + "." + b == c + "." + d
    ensures |a| < |c| ==> '.' in b
  {
    var s := a + "." + b;
    if |a| < |c| {
      assert s[|c|] == b[|c| - |a| - 1];
      assert (c + "." + d)[|c|] == '.';
    }
  }

  /** A string splits at its last dot in one way only. */
  lemma LastDotUnique(a: string, b: string, c: string, d: string)
    requires '.' !in b && '.' !in d
    requires a + "." + b == c + "." + d
    ensures a == c && b == d
  {
    DotInTail(a, b, c, d);
    DotInTail(c, d, a, b);
    var s := a + "." + b;
    assert a == s[..|a|] && c == (c + "." + d)[..|c|];
    assert b == s[|a| + 1..] && d == (c + "." + d)[|c| + 1..];
  }

  lemma DigitsHaveNoDot(n: nat)
    ensures '.' !in Decimal(n)
  {
    var s := Decimal(n);
    DecimalDigits(n);
    forall k | 0 <= k < |s|
      ensures s[k] != '.'
    {
      assert IsDigit(s[k]);
    }
  }

  lemma SafeNameHasNoDot(op: string)
    requires '.' !in op
    ensures '.' !in SafeName(op)
  {
    forall k | 0 <= k < |op|
      ensures SafeName(op)[k] != '.'
    {
      SafeNameAt(op, k);
      assert op[k] in op;
    }
  }

  /** For operator names without a dot, a mutant name determines the file, the operator up to the replacement of
      slashes, and the id; and nothing more. */
  lemma NamesEqualIff(op1: string, file1: string, id1: nat, op2: string, file2: string, id2: nat)
    requires '.' !in op1 && '.' !in op2
    ensures BuildMutantName(op1, file1, id1) == BuildMutantName(op2, file2, id2)
            <==> file1 == file2 && SafeName(op1) == SafeName(op2) && id1 == id2
  {
    if BuildMutantName(op1, file1, id1) == BuildMutantName(op2, file2, id2) {
      var head1, head2 := file1 + "." + SafeName(op1), file2 + "." + SafeName(op2);
      assert BuildMutantName(op1, file1, id1) == head1 + "." + Decimal(id1);
      assert BuildMutantName(op2, file2, id2) == head2 + "." + Decimal(id2);
      DigitsHaveNoDot(id1);
      DigitsHaveNoDot(id2);
      LastDotUnique(head1, Decimal(id1), head2, Decimal(id2));
      DecimalRoundTrip(id1);
      DecimalRoundTrip(id2);
      SafeNameHasNoDot(op1);
      SafeNameHasNoDot(op2);
      LastDotUnique(file1, SafeName(op1), file2, SafeName(op2));
    }
  }

  /** Without dashes of their own, operator names survive the replacement. */
  lemma SafeNameInjective(op1: string, op2: string)
    requires '-' !in op1 && '-' !in op2 && SafeName(op1) == SafeName(op2)
    ensures op1 == op2
  {
    forall k | 0 <= k < |op1|
      ensures op1[k] == op2[k]
    {
      SafeNameAt(op1, k);
      SafeNameAt(op2, k);
      assert op1[k] in op1 && op2[k] in op2;
    }
  }

  /** Two operators that differ only in a slash and a dash give the same names. */
  lemma SlashAndDashCollide(before: string, after: string, file: string, id: nat)
    ensures BuildMutantName(before + "/" + after, file, id) == BuildMutantName(before + "-" + after, file, id)
  {
    var a, b := before + "/" + after, before + "-" + after;
    forall k | 0 <= k < |a|
      ensures SafeName(a)[k] == SafeName(b)[k]
    {
      SafeNameAt(a, k);
      SafeNameAt(b, k);
    }
    assert SafeName(a) == SafeName(b);
  }

  // ----- the pattern ([\w\-. ]+.go)[\w\-. ]*.[\d]+ -----

  predicate IsNameChar(c: char) {
    ('0' <= c <= '9') || ('A' <= c <= 'Z') || ('a' <= c <= 'z') || c in {'_', '-', '.', ' '}
  }

  predicate NameChars(s: string, from: nat, to: nat)
    requires to <= |s|
  {
    forall k | from <= k < to :: IsNameChar(s[k])
  }

  /** The capturing group matches `s[i..k]`. The dot before "go" is any character. */
  predicate GroupAt(s: string, i: nat, k: nat) {
    i + 4 <= k <= |s| && NameChars(s, i, k - 3) && s[k - 3] != '\n' && s[k - 2] == 'g' && s[k - 1] == 'o'
  }

  predicate TailEndsAt(s: string, k: nat, p: nat) {
    k <= p && p + 1 < |s| && NameChars(s, k, p) && s[p] != '\n' && IsDigit(s[p + 1])
  }

  /** The rest of the pattern matches from `k` on; one digit is enough. */
  predicate TailAt(s: string, k: nat) {
    exists p | k <= p < |s| :: TailEndsAt(s, k, p)
  }

  predicate MatchAt(s: string, i: nat, k: nat) {
    GroupAt(s, i, k) && TailAt(s, k)
  }

  /** Greedy repetition: the longest group first. */
  function LongestGroup(s: string, i: nat, k: nat): Option<nat>
    decreases k
  {
    if k < i + 4 then None
    else if MatchAt(s, i, k) then Some(k)
    else LongestGroup(s, i, k - 1)
  }

  /** The first match of the unanchored pattern: where its group begins and ends. */
  function FindMatch(s: string, i: nat): Option<(nat, nat)>
    decreases |s| - i
  {
    if i >= |s| then None
    else match LongestGroup(s, i, |s|)
      case Some(k) => Some((i, k))
      case None => FindMatch(s, i + 1)
  }

  lemma {:induction false} LongestGroupMeaning(s: string, i: nat, k: nat)
    ensures match LongestGroup(s, i, k)
            case Some(e) => e <= k && MatchAt(s, i, e) && forall f: nat | e < f <= k :: !MatchAt(s, i, f)
            case None => forall f: nat | f <= k :: !MatchAt(s, i, f)
    decreases k
  {
    if k >= i + 4 && !MatchAt(s, i, k) {
      LongestGroupMeaning(s, i, k - 1);
    }
  }

  /** The search returns the leftmost match and there the longest group; it fails only if nothing matches. */
  lemma {:induction false} FindMatchMeaning(s: string, i: nat)
    ensures match FindMatch(s, i)
            case Some((b, e)) =>
              && i <= b && MatchAt(s, b, e)
              && (forall f: nat | f > e :: !MatchAt(s, b, f))
              && (forall a: nat, f: nat | i <= a < b :: !MatchAt(s, a, f))
            case None => forall a: nat, f: nat | i <= a :: !MatchAt(s, a, f)
    decreases |s| - i
  {
    if i < |s| {
      LongestGroupMeaning(s, i, |s|);
      if LongestGroup(s, i, |s|).None? {
        FindMatchMeaning(s, i + 1);
      }
    }
  }

  predicate IsMutant(candidate: string) {
    FindMatch(Clean(candidate), 0).Some?
  }

  /** `getMutatedFileRelativePath`; `None` where the source indexes an empty list of matches. */
  function GetMutatedFileRelativePath(pathSoFar: string, mutantFolder: string): Option<string> {
    match FindMatch(mutantFolder, 0)
    case None => None
    case Some((b, e)) => if b <= e <= |mutantFolder| then Some(AppendFolder(pathSoFar, mutantFolder[b..e])) else None
  }

  // ----- which names are recognised -----

  /** `[\w\-. ]`. */
  predicate InAlphabet(c: char) {
    c in "ABCDEFGHIJKLMNOPQRSTUVWXYZ" || c in "abcdefghijklmnopqrstuvwxyz" || c in "0123456789" || c in "_-. "
  }

  /** The text splits as the pattern says: some name characters, any character, "go", name characters, any character,
      a digit. */
  ghost predicate SplitsAs(s: string, before: string, head: string, c: char, mid: string, d: char, digit: char,
                           after: string) {
    && s == before + head + [c] + "go" + mid + [d] + [digit] + after
    && head != "" && (forall x | x in head + mid :: InAlphabet(x))
    && c != '\n' && d != '\n' && digit in "0123456789"
  }

  ghost predicate SplitsAsMutant(s: string) {
    exists before, head, c, mid, d, digit, after :: SplitsAs(s, before, head, c, mid, d, digit, after)
  }

  lemma UpperCase(c: char)
    ensures c in "ABCDEFGHIJKLMNOPQRSTUVWXYZ" <==> 'A' <= c <= 'Z'
  {
  }

  lemma LowerCase(c: char)
    ensures c in "abcdefghijklmnopqrstuvwxyz" <==> 'a' <= c <= 'z'
  {
  }

  lemma Digits(c: char)
    ensures IsDigit(c) <==> c in "0123456789"
  {
    if IsDigit(c) {
      assert "0123456789"[(c - '0') as int] == c;
    }
  }

  lemma Alphabet(c: char)
    ensures IsNameChar(c) <==> InAlphabet(c)
  {
    UpperCase(c);
    LowerCase(c);
    Digits(c);
  }

  lemma SplitsIfMatched(s: string, i: nat, k: nat)
    requires MatchAt(s, i, k)
    ensures SplitsAsMutant(s)
  {
    var p :| k <= p < |s| && TailEndsAt(s, k, p);
    var before, head, mid, after := s[..i], s[i..k - 3], s[k..p], s[p + 2..];
    forall x | x in head + mid
      ensures InAlphabet(x)
    {
      Alphabet(x);
    }
    Digits(s[p + 1]);
    Reassembled(s, i, k, p);
    assert SplitsAs(s, before, head, s[k - 3], mid, s[p], s[p + 1], after);
  }

  lemma Reassembled(s: string, i: nat, k: nat, p: nat)
    requires i + 4 <= k <= p < |s| - 1 && s[k - 2] == 'g' && s[k - 1] == 'o'
    ensures s == s[..i] + s[i..k - 3] + [s[k - 3]] + "go" + s[k..p] + [s[p]] + [s[p + 1]] + s[p + 2..]
  {
    assert s[..i] + s[i..k - 3] == s[..k - 3];
    assert s[..k - 3] + [s[k - 3]] == s[..k - 2];
    assert s[..k - 2] + "go" == s[..k];
    assert s[..k] + s[k..p] == s[..p];
    assert s[..p] + [s[p]] == s[..p + 1];
    assert s[..p + 1] + [s[p + 1]] == s[..p + 2];
    assert s[..p + 2] + s[p + 2..] == s;
  }

  lemma MatchedIfSplits(s: string, before: string, head: string, c: char, mid: string, d: char, digit: char,
                        after: string)
    requires SplitsAs(s, before, head, c, mid, d, digit, after)
    ensures MatchAt(s, |before|, |before| + |head| + 3)
  {
    var i, k := |before|, |before| + |head| + 3;
    var p := k + |mid|;
    forall j | i <= j < k - 3
      ensures IsNameChar(s[j])
    {
      assert s[j] == head[j - i];
      assert s[j] in head + mid;
      Alphabet(s[j]);
    }
    assert s[k - 3] == c && s[k - 2] == 'g' && s[k - 1] == 'o';
    forall j | k <= j < p
      ensures IsNameChar(s[j])
    {
      assert s[j] == mid[j - k];
      assert s[j] in head + mid;
      Alphabet(s[j]);
    }
    assert s[p] == d && s[p + 1] == digit;
    Digits(digit);
    assert TailEndsAt(s, k, p);
  }

  /** A directory is taken for a mutant if and only if its cleaned name splits as the pattern says. */
  lemma IsMutantIff(candidate: string)
    ensures IsMutant(candidate) <==> SplitsAsMutant(Clean(candidate))
  {
    var s := Clean(candidate);
    FindMatchMeaning(s, 0);
    if IsMutant(candidate) {
      var (b, e) := FindMatch(s, 0).value;
      SplitsIfMatched(s, b, e);
    }
    if SplitsAsMutant(s) {
      var before, head, c, mid, d, digit, after :| SplitsAs(s, before, head, c, mid, d, digit, after);
      MatchedIfSplits(s, before, head, c, mid, d, digit, after);
    }
  }

  lemma PlainIsClean(name: string)
    requires Plain(name)
    ensures Clean(name) == name
  {
    CleanPlain([name]);
  }

  /** A directory name without the text "go", or without a digit somewhere behind it, is none. */
  lemma NotAMutant(name: string)
    requires Plain(name)
    requires forall t | 0 <= t < |name| && GoAt(name, t) ::
               forall j | t + 2 <= j < |name| :: name[j] !in "0123456789"
    ensures !IsMutant(name)
  {
    PlainIsClean(name);
    IsMutantIff(name);
    if before, head, c, mid, d, digit, after :| SplitsAs(name, before, head, c, mid, d, digit, after) {
      GoThenDigit(name, before, head, c, mid, d, digit, after);
    }
  }

  lemma GoThenDigit(s: string, before: string, head: string, c: char, mid: string, d: char, digit: char, after: string)
    requires SplitsAs(s, before, head, c, mid, d, digit, after)
    ensures exists t, j | 0 <= t < |s| && t + 2 <= j < |s| :: GoAt(s, t) && s[j] in "0123456789"
  {
    var t := |before| + |head| + 1;
    assert GoAt(s, t);
    assert s[t + 2 + |mid| + 1] == digit;
  }

  /** Whatever directory is recognised, its file name can be read: no empty list of matches is indexed. */
  lemma RecognisedIsRead(dir: string, name: string)
    requires Plain(name)
    ensures IsMutant(name) <==> GetMutatedFileRelativePath(dir, name).Some?
  {
    PlainIsClean(name);
    FindMatchMeaning(name, 0);
  }

  // ----- reading a printed name back -----

  predicate AllNameChars(s: string) {
    NameChars(s, 0, |s|)
  }

  /** A file name the pattern can capture. */
  predicate IsGoFileName(base: string) {
    |base| >= 4 && AllNameChars(base) && base[|base| - 3..] == ".go"
  }

  predicate GoAt(s: string, t: int) {
    0 <= t < |s| - 1 && s[t] == 'g' && s[t + 1] == 'o'
  }

  /** `s` contains the text "go". */
  predicate MentionsGo(s: string) {
    exists t | 0 <= t < |s| :: GoAt(s, t)
  }

  /** A printed name, position by position: file, dot, operator, dot, digits. */
  ghost predicate LaidOut(s: string, base: string, op: string) {
    var n, m := |base|, |base| + 1 + |op|;
    && m + 1 < |s|
    && (forall k | 0 <= k < n :: s[k] == base[k])
    && s[n] == '.'
    && (forall k | n < k < m :: s[k] == op[k - n - 1])
    && s[m] == '.'
    && (forall k | m < k < |s| :: IsDigit(s[k]))
  }

  lemma NameLayout(base: string, op: string, id: nat)
    ensures LaidOut(BuildMutantName(op, base, id), base, SafeName(op))
  {
    DecimalDigits(id);
    PlainLayout(base, SafeName(op), Decimal(id));
  }

  lemma PlainLayout(base: string, op: string, digits: string)
    requires |digits| >= 1 && forall k | 0 <= k < |digits| :: IsDigit(digits[k])
    ensures LaidOut(base + ("." + op + "." + digits), base, op)
  {
    var s := base + ("." + op + "." + digits);
    var m := |base| + 1 + |op|;
    forall k | m < k < |s|
      ensures IsDigit(s[k])
    {
      assert s[k] == digits[k - m - 1];
    }
  }

  lemma CharsUpToLastDot(s: string, base: string, op: string)
    requires LaidOut(s, base, op) && AllNameChars(base) && AllNameChars(op)
    ensures NameChars(s, 0, |base| + 1 + |op|)
  {
    forall k | 0 <= k < |base| + 1 + |op|
      ensures IsNameChar(s[k])
    {
      if k < |base| {
        assert IsNameChar(base[k]);
      } else if k > |base| {
        assert IsNameChar(op[k - |base| - 1]);
      }
    }
  }

  /** The tail of the pattern matches after every position up to the last dot. */
  lemma TailMatches(s: string, base: string, op: string, k: nat)
    requires LaidOut(s, base, op) && AllNameChars(base) && AllNameChars(op) && k <= |base| + 1 + |op|
    ensures TailAt(s, k)
  {
    CharsUpToLastDot(s, base, op);
    assert TailEndsAt(s, k, |base| + 1 + |op|);
  }

  lemma GoSuffix(base: string)
    requires IsGoFileName(base)
    ensures base[|base| - 3] == '.' && base[|base| - 2] == 'g' && base[|base| - 1] == 'o'
  {
    var end := base[|base| - 3..];
    assert end[0] == '.' && end[1] == 'g' && end[2] == 'o';
  }

  /** The whole file name is one possible group. */
  lemma FileNameMatches(s: string, base: string, op: string)
    requires LaidOut(s, base, op) && IsGoFileName(base) && AllNameChars(op)
    ensures MatchAt(s, 0, |base|)
  {
    GoSuffix(base);
    CharsUpToLastDot(s, base, op);
    TailMatches(s, base, op, |base|);
  }

  /** Any "go" in the operator name ends a longer one. */
  lemma LongerGroup(s: string, base: string, op: string, t: nat)
    requires LaidOut(s, base, op) && IsGoFileName(base) && AllNameChars(op) && t < |op| && GoAt(op, t)
    ensures MatchAt(s, 0, |base| + t + 3)
  {
    var k := |base| + t + 3;
    assert s[k - 2] == op[t] && s[k - 1] == op[t + 1];
    CharsUpToLastDot(s, base, op);
    assert IsNameChar(s[k - 3]);
    TailMatches(s, base, op, k);
  }

  lemma NoLaterGroup(s: string, base: string, op: string, k: nat)
    requires LaidOut(s, base, op) && IsGoFileName(base) && !MentionsGo(op) && k > |base|
    ensures !GroupAt(s, 0, k)
  {
    GoSuffix(base);
    var m := |base| + 1 + |op|;
    if |base| < k - 2 < m - 1 {
      var t := k - 2 - |base| - 1;
      assert op[t] == s[k - 2] && op[t + 1] == s[k - 1];
      assert !GoAt(op, t);
    }
    assert m < k - 2 < |s| ==> IsDigit(s[k - 2]);
    assert m < k - 1 < |s| ==> IsDigit(s[k - 1]);
  }

  /** The pattern reads the file name back from the printed name exactly when the operator name does not itself
      mention "go". */
  lemma DecodesIff(base: string, op: string, id: nat)
    requires IsGoFileName(base) && AllNameChars(SafeName(op))
    ensures FindMatch(BuildMutantName(op, base, id), 0) == Some((0, |base|)) <==> !MentionsGo(SafeName(op))
  {
    NameLayout(base, op, id);
    DecodesLaidOut(BuildMutantName(op, base, id), base, SafeName(op));
  }

  lemma DecodesLaidOut(s: string, base: string, op: string)
    requires LaidOut(s, base, op) && IsGoFileName(base) && AllNameChars(op)
    ensures FindMatch(s, 0) == Some((0, |base|)) <==> !MentionsGo(op)
  {
    FileNameMatches(s, base, op);
    FindMatchMeaning(s, 0);
    if MentionsGo(op) {
      var t :| 0 <= t < |op| && GoAt(op, t);
      LongerGroup(s, base, op, t);
    } else {
      forall k: nat | k > |base|
        ensures !MatchAt(s, 0, k)
      {
        NoLaterGroup(s, base, op, k);
      }
    }
  }

  lemma CleanName(base: string, op: string, id: nat)
    requires IsGoFileName(base) && AllNameChars(SafeName(op))
    ensures Clean(BuildMutantName(op, base, id)) == BuildMutantName(op, base, id)
  {
    var s := BuildMutantName(op, base, id);
    NameLayout(base, op, id);
    PrintedIsPlain(s, base, SafeName(op));
    CleanPlain([s]);
  }

  lemma PrintedIsPlain(s: string, base: string, op: string)
    requires LaidOut(s, base, op) && IsGoFileName(base) && AllNameChars(op)
    ensures AllPlain([s]) && Join([s]) == s
  {
    CharsUpToLastDot(s, base, op);
    forall k | 0 <= k < |s|
      ensures s[k] != '/'
    {
      assert k < |base| + 1 + |op| ==> IsNameChar(s[k]);
    }
    assert |s| > 2;
  }

  /** Round trip: the directory printed for a file is recognised as a mutant and leads back to the file's path. */
  lemma NameRoundTrip(dir: string, base: string, op: string, id: nat)
    requires IsGoFileName(base) && AllNameChars(SafeName(op)) && !MentionsGo(SafeName(op))
    ensures var name := BuildMutantName(op, base, id);
            && IsMutant(name)
            && GetMutatedFileRelativePath(dir, name) == Some(AppendFolder(dir, base))
            && BuildMutantName(op, AppendFolder(dir, base), id) == AppendFolder(dir, name)
  {
    var name := BuildMutantName(op, base, id);
    DecodesIff(base, op, id);
    CleanName(base, op, id);
    assert name[0..|base|] == base;
    assert base[0] == name[0];
    AppendThenExtend(dir, base, Suffix(op, id));
  }

  lemma AppendThenExtend(dir: string, base: string, t: string)
    requires |base| >= 1
    ensures AppendFolder(dir, base) + t == AppendFolder(dir, base + t)
  {
    assert IsPrefix("/", base) <==> IsPrefix("/", base + t) by {
      assert base[0] == (base + t)[0];
    }
    if IsPrefix("/", base) {
      assert (base + t)[1..] == base[1..] + t;
      Assoc(dir, base[1..], t);
    }
    Assoc(dir, base, t);
    Assoc(dir + "/", base, t);
  }

  /** A slash or a name character, but no dot, no dash and no 'g'. */
  predicate TameChar(c: char) {
    c != 'g' && c != '.' && c != '-' && (IsNameChar(c) || c == '/')
  }

  predicate Tame(name: string) {
    forall c | c in name :: TameChar(c)
  }

  lemma BranchNamesAreTame()
    ensures Tame("branch/case") && Tame("branch/else") && Tame("branch/if")
  {
  }

  lemma RemovalNamesAreTame()
    ensures Tame("expression/remove") && Tame("statement/remove") && Tame("statement/removeblock")
  {
  }

  lemma OtherNamesAreTame()
    ensures Tame("statement/timeout") && Tame("distributed/readzero")
  {
  }

  lemma RegisteredNamesAreTame(op: Operator)
    ensures Tame(RegisteredName(op))
  {
    BranchNamesAreTame();
    RemovalNamesAreTame();
    OtherNamesAreTame();
  }

  /** The operators that exist meet both conditions: their mutants never collide and always decode. */
  lemma RegisteredNamesAreGood(op: Operator)
    ensures '.' !in RegisteredName(op) && '-' !in RegisteredName(op)
    ensures AllNameChars(SafeName(RegisteredName(op))) && !MentionsGo(SafeName(RegisteredName(op)))
  {
    RegisteredNamesAreTame(op);
    TameNamesAreGood(RegisteredName(op));
  }

  lemma TameNamesAreGood(name: string)
    requires Tame(name)
    ensures '.' !in name && '-' !in name
    ensures AllNameChars(SafeName(name)) && !MentionsGo(SafeName(name))
  {
    var safe := SafeName(name);
    forall t | 0 <= t < |safe|
      ensures IsNameChar(safe[t]) && safe[t] != 'g'
    {
      SafeNameAt(name, t);
      assert name[t] in name;
    }
  }

  lemma RegisteredNamesDiffer(op1: Operator, op2: Operator)
    requires SafeName(RegisteredName(op1)) == SafeName(RegisteredName(op2))
    ensures op1 == op2
  {
    RegisteredNamesAreGood(op1);
    RegisteredNamesAreGood(op2);
    SafeNameInjective(RegisteredName(op1), RegisteredName(op2));
    assert RegisteredName(op1)[0] == RegisteredName(op2)[0] && RegisteredName(op1)[7] == RegisteredName(op2)[7];
  }
}

/** Naming new forms: a hint is normalised and numbered until it is unused. */
module FormIds {
  import opened Prelude
  import opened Text

  const LIMIT := 64

  predicate IdChar(c: char) {
    'a' <= c <= 'z' || '0' <= c <= '9' || c == '_' || c == '-'
  }

  predicate IsDash(c: char) {
    c == '-'
  }

  function DropSuffix(s: string, suffix: string): string {
    if |s| >= |suffix| && s[|s| - |suffix|..] == suffix then s[..|s| - |suffix|] else s
  }

  function DashSpaces(s: string): (r: string)
    ensures |r| == |s| && forall i :: 0 <= i < |s| ==> r[i] == if s[i] == ' ' then '-' else s[i]
  {
    seq(|s|, i requires 0 <= i < |s| => if s[i] == ' ' then '-' else s[i])
  }

  predicate AllIdChars(s: string) {
    forall i :: 0 <= i < |s| ==> IdChar(s[i])
  }

  function KeepIdChars(s: string): (r: string)
    ensures AllIdChars(r)
    ensures AllIdChars(s) ==> r == s
  {
    if s == "" then "" else (if IdChar(s[0]) then [s[0]] else []) + KeepIdChars(s[1..])
  }

  predicate NoDoubleDash(s: string) {
    forall i :: 1 <= i < |s| ==> !(s[i - 1] == '-' && s[i] == '-')
  }

  /** A run of dashes becomes one dash. */
  function Collapse(s: string): (r: string)
    ensures r == "" <==> s == ""
    ensures s != "" ==> r[0] == s[0]
    ensures NoDoubleDash(r)
    ensures AllIdChars(s) ==> AllIdChars(r)
  {
    if s == "" then ""
    else if |s| >= 2 && s[0] == '-' && s[1] == '-' then Collapse(s[1..])
    else
      var rest := Collapse(s[1..]);
      assert forall i :: 1 <= i < |rest| ==> rest[i] == ([s[0]] + rest)[i + 1];
      [s[0]] + rest
  }

  function Truncate(s: string): string {
    if |s| > LIMIT then s[..LIMIT] else s
  }

  function BareName(hint: string): string {
    DropSuffix(DropSuffix(Lower(Strip(hint)), ".md"), ".markdown")
  }

  function Squeeze(s: string): (r: string)
    ensures AllIdChars(r) && NoDoubleDash(r)
    ensures AllIdChars(s) ==> r == Collapse(s)
  {
    assert AllIdChars(s) ==> DashSpaces(s) == s;
    Collapse(KeepIdChars(DashSpaces(s)))
  }

  function Clean(hint: string): string {
    Trim(Squeeze(BareName(hint)), IsDash)
  }

  function Normalize(hint: string): string {
    if Clean(hint) == "" then "form" else Truncate(Clean(hint))
  }

  /** A usable id; only a truncated one can end in a dash. */
  ghost predicate ValidId(id: string) {
    && 1 <= |id| <= LIMIT && AllIdChars(id) && NoDoubleDash(id)
    && id[0] != '-' && (|id| < LIMIT ==> id[|id| - 1] != '-')
  }

  lemma TrimDashes(s: string)
    requires AllIdChars(s) && NoDoubleDash(s)
    ensures var t := Trim(s, IsDash); AllIdChars(t) && NoDoubleDash(t) && Bare(t, IsDash)
  {
    TrimLeftSpec(s, IsDash);
    TrimRightSpec(TrimLeft(s, IsDash), IsDash);
    TrimIsBare(s, IsDash);
    var t, skip := Trim(s, IsDash), |s| - |TrimLeft(s, IsDash)|;
    assert forall i :: 0 <= i < |t| ==> t[i] == s[skip + i];
  }

  lemma NormalizeValid(hint: string)
    ensures ValidId(Normalize(hint)) && 1 <= |Normalize(hint)| <= 64
  {
    TrimDashes(Squeeze(BareName(hint)));
    TruncateValid(Clean(hint));
  }

  lemma TruncateValid(s: string)
    requires AllIdChars(s) && NoDoubleDash(s) && Bare(s, IsDash)
    ensures ValidId(if s == "" then "form" else Truncate(s))
  {
  }

  lemma {:induction false} LowerSame(s: string)
    requires AllIdChars(s)
    ensures Lower(s) == s
  {
    if s != "" { LowerSame(s[1..]); }
  }

  lemma {:induction false} CollapseSame(s: string)
    requires NoDoubleDash(s)
    ensures Collapse(s) == s
  {
    if s != "" {
      assert forall i :: 1 <= i < |s| - 1 ==> s[1..][i - 1] == s[i] && s[1..][i] == s[i + 1];
      CollapseSame(s[1..]);
    }
  }

  lemma {:induction false} CollapseJoint(base: string, digits: string)
    requires base != "" && NoDoubleDash(base) && base[|base| - 1] == '-'
    requires digits != "" && NoDoubleDash(digits) && digits[0] != '-'
    ensures Collapse(base + "-" + digits) == base + digits
  {
    var s := base + "-" + digits;
    if |base| == 1 {
      assert s[1..] == "-" + digits && base == "-";
      assert ("-" + digits)[1..] == digits;
      CollapseSame(digits);
    } else {
      assert forall i :: 1 <= i < |base| - 1 ==> base[1..][i - 1] == base[i] && base[1..][i] == base[i + 1];
      CollapseJoint(base[1..], digits);
      assert s[1..] == base[1..] + "-" + digits && s[1] == base[1];
      assert !(base[0] == '-' && base[1] == '-');
    }
  }

  /** Cleaning leaves id characters alone but for double dashes and outer dashes. */
  lemma CleanOfIdChars(s: string)
    requires s != "" && AllIdChars(s) && s[0] != '-' && s[|s| - 1] != '-'
    ensures Clean(s) == Trim(Collapse(s), IsDash)
  {
    BareNameSame(s);
  }

  lemma BareNameSame(s: string)
    requires s != "" && AllIdChars(s)
    ensures BareName(s) == s
  {
    StripTrimmed(s);
    LowerSame(s);
    NoSuffixDropped(s, ".md");
    NoSuffixDropped(s, ".markdown");
  }

  lemma NoSuffixDropped(s: string, suffix: string)
    requires AllIdChars(s) && suffix != "" && suffix[0] == '.'
    ensures DropSuffix(s, suffix) == s
  {
    if |s| >= |suffix| { assert s[|s| - |suffix|..][0] == s[|s| - |suffix|]; }
  }

  // ---------------------------------------------------------------------
  // What a hint becomes
  // ---------------------------------------------------------------------

  predicate IsSeparator(c: char) {
    c == ' ' || c == '-'
  }

  predicate HintChar(c: char) {
    'a' <= c <= 'z' || 'A' <= c <= 'Z' || '0' <= c <= '9' || c == '_' || IsSeparator(c)
  }

  /** Letters appear in lower case, blanks as dashes. */
  function Shown(c: char): char {
    if 'A' <= c <= 'Z' then (c as int + 32) as char else if c == ' ' then '-' else c
  }

  function Kept(text: string): string {
    if text == "" then "" else (if HintChar(text[0]) then [Shown(text[0])] else []) + Kept(text[1..])
  }

  function LowerChar(c: char): char {
    if 'A' <= c <= 'Z' then (c as int + 32) as char else c
  }

  lemma CharKept(c: char)
    ensures var shown := if LowerChar(c) == ' ' then '-' else LowerChar(c);
            (IdChar(shown) <==> HintChar(c)) && (HintChar(c) ==> shown == Shown(c))
  {
  }

  lemma {:induction false} KeptIs(text: string)
    ensures KeepIdChars(DashSpaces(Lower(text))) == Kept(text)
  {
    if text != "" {
      KeptIs(text[1..]);
      CharKept(text[0]);
      var s := DashSpaces(Lower(text));
      assert Lower(text)[0] == LowerChar(text[0]) && Lower(text)[1..] == Lower(text[1..]);
      assert s[0] == (if LowerChar(text[0]) == ' ' then '-' else LowerChar(text[0]));
      assert s[1..] == DashSpaces(Lower(text[1..]));
    }
  }

  lemma {:induction false} LowerAppend(a: string, b: string)
    ensures Lower(a + b) == Lower(a) + Lower(b)
  {
    if a == "" {
      assert a + b == b;
    } else {
      LowerAppend(a[1..], b);
      assert (a + b)[1..] == a[1..] + b;
      HeadInFront(Lower(a + b), Lower(a)[..1], Lower(a[1..] + b), Lower(a[1..]), Lower(b));
      assert Lower(a)[..1] + Lower(a[1..]) == Lower(a);
    }
  }

  lemma {:induction false} LowerDots(s: string)
    ensures '.' in Lower(s) <==> '.' in s
  {
    if s != "" {
      LowerDots(s[1..]);
      assert s == [s[0]] + s[1..];
    }
  }

  lemma NoDotNoSuffix(s: string, suffix: string)
    requires '.' !in s && suffix != "" && suffix[0] == '.'
    ensures DropSuffix(s, suffix) == s && DropSuffix(s + suffix, suffix) == s
  {
    if |s| >= |suffix| { assert s[|s| - |suffix|..][0] == s[|s| - |suffix|]; }
    assert (s + suffix)[|s|..] == suffix && (s + suffix)[..|s|] == s;
  }

  lemma SuffixDropped(text: string, suffix: string)
    requires '.' !in text && suffix in ["", ".md", ".markdown"]
    ensures DropSuffix(DropSuffix(text + suffix, ".md"), ".markdown") == text
  {
    NoDotNoSuffix(text, ".md");
    NoDotNoSuffix(text, ".markdown");
    assert text + "" == text;
    if suffix == ".markdown" {
      var whole := text + suffix;
      assert whole[|whole| - 3..][2] == 'n' && ".md"[2] == 'd';
    }
  }

  lemma {:induction false} UnpaddedHint(text: string, suffix: string)
    requires text != "" && HintChar(text[0]) && !IsSeparator(text[0])
    requires HintChar(text[|text| - 1]) && !IsSeparator(text[|text| - 1])
    requires Lower(suffix) in ["", ".md", ".markdown"]
    ensures Strip(text + suffix) == text + suffix
  {
    var hint := text + suffix;
    if suffix != "" {
      assert Lower(suffix)[|suffix| - 1] in ['d', 'n'];
      LowerAt(suffix, |suffix| - 1);
      assert hint[|hint| - 1] == suffix[|suffix| - 1];
    } else {
      assert hint == text;
    }
    assert hint[0] == text[0] && !IsSpace(hint[0]) && !IsSpace(hint[|hint| - 1]);
    TrimIsBare(hint, IsSpace);
  }

  lemma {:induction false} BareNameOf(text: string, suffix: string)
    requires text != "" && '.' !in text && HintChar(text[0]) && !IsSeparator(text[0])
    requires HintChar(text[|text| - 1]) && !IsSeparator(text[|text| - 1])
    requires Lower(suffix) in ["", ".md", ".markdown"]
    ensures BareName(text + suffix) == Lower(text)
  {
    UnpaddedHint(text, suffix);
    LowerAppend(text, suffix);
    LowerDots(text);
    SuffixDropped(Lower(text), Lower(suffix));
  }

  lemma {:induction false} LowerAt(s: string, i: nat)
    requires i < |s|
    ensures Lower(s)[i] == LowerChar(s[i])
  {
    if i > 0 { LowerAt(s[1..], i - 1); }
  }

  /** A hint that starts and ends with a letter, digit or underscore keeps exactly its
      letters, in lower case, its digits, underscores and dashes, and its blanks as
      dashes, in order, whatever else is between them and whether or not it ends in
      ".md" or ".markdown", unless that leaves two dashes in a row or is too long. */
  lemma NormalizeKeeps(text: string, suffix: string)
    requires text != "" && '.' !in text && HintChar(text[0]) && !IsSeparator(text[0])
    requires HintChar(text[|text| - 1]) && !IsSeparator(text[|text| - 1])
    requires Lower(suffix) in ["", ".md", ".markdown"]
    requires NoDoubleDash(Kept(text)) && |Kept(text)| <= 64
    ensures Normalize(text + suffix) == Kept(text)
  {
    var kept := Kept(text);
    BareNameOf(text, suffix);
    KeptIs(text);
    CollapseSame(kept);
    KeptEnds(text);
    TrimIsBare(kept, IsDash);
  }

  lemma {:induction false} KeptEnds(text: string)
    requires text != "" && HintChar(text[0]) && HintChar(text[|text| - 1])
    ensures Kept(text) != "" && Kept(text)[0] == Shown(text[0])
    ensures Kept(text)[|Kept(text)| - 1] == Shown(text[|text| - 1])
  {
    KeptLast(text);
  }

  lemma {:induction false} KeptLast(text: string)
    requires text != "" && HintChar(text[|text| - 1])
    ensures Kept(text) != "" && Kept(text)[|Kept(text)| - 1] == Shown(text[|text| - 1])
  {
    if |text| > 1 {
      KeptLast(text[1..]);
    } else {
      assert text[1..] == "";
    }
  }

  /** A hint with none of these characters but separators becomes "form". */
  lemma NothingKept(text: string)
    requires '.' !in text && forall i :: 0 <= i < |text| && HintChar(text[i]) ==> IsSeparator(text[i])
    ensures Normalize(text) == "form"
  {
    var bare := Strip(text);
    TrimLeftSpec(text, IsSpace);
    TrimRightSpec(TrimLeft(text, IsSpace), IsSpace);
    assert forall i :: 0 <= i < |bare| ==> bare[i] == text[|text| - |TrimLeft(text, IsSpace)| + i];
    LowerDots(bare);
    NoDotNoSuffix(Lower(bare), ".md");
    NoDotNoSuffix(Lower(bare), ".markdown");
    KeptIs(bare);
    KeptDashes(bare);
    CollapseDashes(Kept(bare));
    TrimDashes(Squeeze(BareName(text)));
  }

  predicate OnlyDashes(s: string) {
    forall i :: 0 <= i < |s| ==> s[i] == '-'
  }

  lemma {:induction false} KeptDashes(text: string)
    requires forall i :: 0 <= i < |text| && HintChar(text[i]) ==> IsSeparator(text[i])
    ensures OnlyDashes(Kept(text))
  {
    if text != "" { KeptDashes(text[1..]); }
  }

  lemma {:induction false} CollapseDashes(s: string)
    requires OnlyDashes(s)
    ensures OnlyDashes(Collapse(s)) && Trim(Collapse(s), IsDash) == ""
  {
    if s != "" { CollapseDashes(s[1..]); }
    var c := Collapse(s);
    TrimLeftSpec(c, IsDash);
    assert forall i :: 0 <= i < |c| ==> IsDash(c[i]);
  }

  /** The base is tried first, then the base numbered from 2 on. */
  function Candidate(base: string, j: nat): string
    requires j >= 1
  {
    if j == 1 then base else Normalize(base + "-" + Decimal(j))
  }

  lemma CandidateValid(base: string, j: nat)
    requires ValidId(base) && j >= 1
    ensures ValidId(Candidate(base, j))
    ensures j >= 2 ==> Candidate(base, j) == Normalize(base + "-" + Decimal(j))
  {
    NormalizeValid(base + "-" + Decimal(j));
  }

  lemma DigitsAreIdChars(n: nat)
    ensures var d := Decimal(n); NoDoubleDash(d) && d[0] != '-' && AllIdChars(d)
  {
  }

  /** A numbered candidate is the base, a dash and the number, cut at the limit. */
  lemma CandidateForm(base: string, j: nat)
    requires ValidId(base) && j >= 2
    ensures Candidate(base, j) == Truncate(base + "-" + Decimal(j))
  {
    var d := Decimal(j);
    var s := base + "-" + d;
    DigitsAreIdChars(j);
    assert s[|s| - 1] == d[|d| - 1] && s[0] == base[0];
    CleanOfIdChars(s);
    if base[|base| - 1] == '-' {
      CollapseJoint(base, d);
      TrimIsBare(base + d, IsDash);
      assert (base + d)[..LIMIT] == base && s[..LIMIT] == base;
    } else {
      SnocDash(base, d);
      CollapseSame(s);
      TrimIsBare(s, IsDash);
    }
  }

  lemma SnocDash(base: string, digits: string)
    requires base != "" && NoDoubleDash(base) && base[|base| - 1] != '-'
    requires digits != "" && NoDoubleDash(digits) && digits[0] != '-'
    ensures NoDoubleDash(base + "-" + digits)
  {
    var s := base + "-" + digits;
    forall i | 1 <= i < |s| ensures !(s[i - 1] == '-' && s[i] == '-') {
      if i < |base| {
        assert s[i - 1] == base[i - 1] && s[i] == base[i];
      } else if i > |base| + 1 {
        assert s[i - 1] == digits[i - |base| - 2] && s[i] == digits[i - |base| - 1];
      }
    }
  }

  predicate Fits(base: string, j: nat) {
    |base| + 1 + |Decimal(j)| <= LIMIT
  }

  lemma {:induction false} DecimalGrows(i: nat, j: nat)
    requires i <= j
    ensures |Decimal(i)| <= |Decimal(j)|
  {
    if i >= 10 { DecimalGrows(i / 10, j / 10); }
  }

  lemma PlainDiffer(base: string, i: nat, j: nat)
    requires 1 <= i < j
    ensures Plain(base, i) != Plain(base, j)
  {
    if i > 1 && Plain(base, i) == Plain(base, j) {
      assert Decimal(i) == Plain(base, i)[|base| + 1..];
      assert Decimal(j) == Plain(base, j)[|base| + 1..];
      DecimalInjective(i, j);
    }
  }

  /** What a candidate is when it fits. */
  function Plain(base: string, j: nat): string {
    if j == 1 then base else base + "-" + Decimal(j)
  }

  function FirstCandidates(base: string, n: nat): (tried: seq<string>)
    ensures |tried| == n && forall k :: 0 <= k < n ==> tried[k] == Plain(base, k + 1)
  {
    seq(n, k requires 0 <= k < n => Plain(base, k + 1))
  }

  lemma FittingIsPlain(base: string, j: nat, n: nat)
    requires ValidId(base) && 1 <= j <= n && Fits(base, n)
    ensures Candidate(base, j) == Plain(base, j)
  {
    DecimalGrows(j, n);
    if j >= 2 { CandidateForm(base, j); }
  }

  lemma FirstDistinct(base: string, n: nat)
    ensures NoDup(FirstCandidates(base, n))
  {
    var tried := FirstCandidates(base, n);
    forall a, b | 0 <= a < b < n ensures tried[a] != tried[b] {
      PlainDiffer(base, a + 1, b + 1);
    }
  }

  /** Distinct candidates outnumber the ids in use: one of the first
      |used| + 1 is free. */
  lemma FreeAmongFirst(used: set<string>, base: string) returns (j: nat)
    requires ValidId(base) && Fits(base, |used| + 1)
    ensures 1 <= j <= |used| + 1 && Candidate(base, j) !in used
  {
    var tried := FirstCandidates(base, |used| + 1);
    FirstDistinct(base, |used| + 1);
    var k := Pigeonhole(tried, used);
    j := k + 1;
    FittingIsPlain(base, j, |used| + 1);
  }

  /** Some candidate is free: without one the search never stops. */
  ghost predicate SearchEnds(used: set<string>, base: string) {
    exists j :: j >= 1 && Candidate(base, j) !in used
  }

  /** The candidates before the j-th are all in use. */
  predicate TakenBelow(used: set<string>, base: string, j: int) {
    j <= 1 || (Candidate(base, j - 1) in used && TakenBelow(used, base, j - 1))
  }

  lemma {:induction false} TakenAt(used: set<string>, base: string, j: int, i: nat)
    requires TakenBelow(used, base, j) && 1 <= i < j
    ensures Candidate(base, i) in used
  {
    if i < j - 1 { TakenAt(used, base, j - 1, i); }
  }

  ghost predicate FirstUnused(used: set<string>, base: string, j: int) {
    j >= 1 && Candidate(base, j) !in used && TakenBelow(used, base, j)
  }

  lemma NotYet(used: set<string>, base: string, i: nat, j: nat)
    requires i >= 1 && j >= 1 && Candidate(base, i) in used && Candidate(base, j) !in used
    ensures i != j
  {
  }

  method NumberedId(base: string, suffix: nat) returns (id: string)
    requires suffix >= 2
    ensures id == Candidate(base, suffix)
  {
    id := Normalize(base + "-" + Decimal(suffix));
  }

  /** The search stops with the first candidate that is not in use. */
  method NextAvailableFormId(used: set<string>, hint: string) returns (id: string)
    requires SearchEnds(used, Normalize(hint))
    ensures id !in used && ValidId(id)
    ensures exists j :: FirstUnused(used, Normalize(hint), j) && id == Candidate(Normalize(hint), j)
  {
    var base := Normalize(hint);
    NormalizeValid(hint);
    id := FirstUnusedFrom(used, base);
  }

  method FirstUnusedFrom(used: set<string>, base: string) returns (id: string)
    requires SearchEnds(used, base) && ValidId(base)
    ensures id !in used && ValidId(id)
    ensures exists j :: FirstUnused(used, base, j) && id == Candidate(base, j)
  {
    ghost var free :| free >= 1 && Candidate(base, free) !in used;
    var candidate, suffix := base, 2;
    while candidate in used
      invariant 2 <= suffix <= free + 1
      invariant candidate == Candidate(base, suffix - 1)
      invariant TakenBelow(used, base, suffix - 1)
      decreases free + 1 - suffix
    {
      NotYet(used, base, suffix - 1, free);
      candidate := NumberedId(base, suffix);
      suffix := suffix + 1;
    }
    CandidateValid(base, suffix - 1);
    assert FirstUnused(used, base, suffix - 1);
    id := candidate;
  }

  /** When the base with the needed number fits, the search stops within
      |used| + 1 candidates. */
  lemma SearchIsShort(used: set<string>, hint: string)
    requires Fits(Normalize(hint), |used| + 1)
    ensures SearchEnds(used, Normalize(hint))
    ensures forall j :: FirstUnused(used, Normalize(hint), j) ==> j <= |used| + 1
  {
    NormalizeValid(hint);
    var free := FreeAmongFirst(used, Normalize(hint));
    forall j | FirstUnused(used, Normalize(hint), j) ensures j <= |used| + 1 {
      if j > free { TakenAt(used, Normalize(hint), j, free); }
    }
  }

  // ---------------------------------------------------------------------
  // When the search ends
  // ---------------------------------------------------------------------

  lemma {:induction false} BelowPower(j: nat)
    ensures j < PowerOfTen(|Decimal(j)|)
  {
    if j >= 10 { BelowPower(j / 10); }
  }

  lemma {:induction false} PowerGrows(a: nat, b: nat)
    requires a <= b
    ensures PowerOfTen(a) <= PowerOfTen(b)
  {
    if a > 0 { PowerGrows(a - 1, b - 1); } else { PowerPositive(b); }
  }

  lemma {:induction false} PowerPositive(k: nat)
    ensures PowerOfTen(k) >= 1
  {
    if k > 0 { PowerPositive(k - 1); }
  }

  /** A digit cut off anyway makes no difference. */
  lemma LastDigitCut(base: string, j: nat)
    requires ValidId(base) && |base| <= LIMIT - 2 && |base| + |Decimal(j)| > LIMIT
    ensures j / 10 >= 2 && Candidate(base, j) == Candidate(base, j / 10)
  {
    var d := Decimal(j / 10);
    assert Decimal(j) == d + [Digit(j % 10)] && |d| >= 2;
    CandidateForm(base, j);
    CandidateForm(base, j / 10);
    assert base + "-" + Decimal(j) == (base + "-" + d) + [Digit(j % 10)];
    assert |base + "-" + d| >= LIMIT;
  }

  lemma AllCut(base: string, j: nat)
    requires ValidId(base) && |base| >= LIMIT - 1 && j >= 2
    ensures Candidate(base, j) == if |base| == LIMIT then base else base + "-"
  {
    CandidateForm(base, j);
    var s := base + "-" + Decimal(j);
    assert s[..LIMIT] == if |base| == LIMIT then base else base + "-";
  }

  /** Every candidate is one of the first, those whose number loses a digit at most. */
  lemma {:induction false} EarlyTwin(base: string, j: nat) returns (i: nat)
    requires ValidId(base) && j >= 1
    ensures 1 <= i <= PowerOfTen(LIMIT - |base|) && Candidate(base, i) == Candidate(base, j)
    decreases j
  {
    PowerPositive(LIMIT - |base|);
    if j == 1 {
      i := 1;
    } else if |base| >= LIMIT - 1 {
      AllCut(base, j);
      AllCut(base, 2);
      i := if |base| == LIMIT then 1 else 2;
    } else if |base| + |Decimal(j)| > LIMIT {
      LastDigitCut(base, j);
      i := EarlyTwin(base, j / 10);
    } else {
      BelowPower(j);
      PowerGrows(|Decimal(j)|, LIMIT - |base|);
      i := j;
    }
  }

  /** The search ends exactly when one of the first ten-to-the-room candidates is
      free, where the room is what the base leaves below the limit. */
  lemma SearchEndsIff(used: set<string>, hint: string)
    ensures var base := Normalize(hint);
            && |base| <= LIMIT
            && (SearchEnds(used, base)
                <==> exists j :: 1 <= j <= PowerOfTen(LIMIT - |base|) && Candidate(base, j) !in used)
  {
    var base := Normalize(hint);
    NormalizeValid(hint);
    if SearchEnds(used, base) {
      var j :| j >= 1 && Candidate(base, j) !in used;
      var i := EarlyTwin(base, j);
    }
  }

  /** A base of full length takes no number: the search stops exactly when the
      base itself is free. */
  lemma FullLengthEndsIff(used: set<string>, hint: string)
    requires |Normalize(hint)| == LIMIT
    ensures SearchEnds(used, Normalize(hint)) <==> Normalize(hint) !in used
  {
    SearchEndsIff(used, hint);
    assert Candidate(Normalize(hint), 1) == Normalize(hint);
  }

  /** One character short of it, the only other candidate is the base and a dash. */
  lemma NearFullLengthEndsIff(used: set<string>, hint: string)
    requires |Normalize(hint)| == LIMIT - 1
    ensures SearchEnds(used, Normalize(hint)) <==> Normalize(hint) !in used || Normalize(hint) + "-" !in used
  {
    var base := Normalize(hint);
    NormalizeValid(hint);
    SearchEndsIff(used, hint);
    AllCut(base, 2);
    assert Candidate(base, 1) == base;
    forall j | 2 <= j <= PowerOfTen(1) ensures Candidate(base, j) == base + "-" {
      AllCut(base, j);
    }
  }
}

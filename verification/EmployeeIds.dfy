/**
 Employee IDs, ORG-BRANCH-NNNN: organisation and branch codes, the prefix of
 every branch, and the running number (apps/portal/lib/employee-id.ts), with the
 next free number (apps/portal/lib/staff-onboarding.ts). Unicode normalisation
 (NFKD) is a parameter.
 */
module EmployeeIds {
  import opened Wrappers
  import opened JsStrings
  import opened Decimals

  // ----- codes

  predicate IsAlnum(c: char) {
    'A' <= c <= 'Z' || 'a' <= c <= 'z' || IsDigit(c)
  }

  function Blank(s: string): string {
    seq(|s|, i requires 0 <= i < |s| => if IsAlnum(s[i]) || s[i] == ' ' then s[i] else ' ')
  }

  function LettersOf(nfkd: string -> string, v: string): string {
    TrimEnd(TrimStart(Blank(nfkd(v))))
  }

  function UpperChar(c: char): char {
    if 'a' <= c <= 'z' then 'A' + (c - 'a') else c
  }

  function Upper(s: string): (u: string)
    ensures |u| == |s|
  {
    seq(|s|, i requires 0 <= i < |s| => UpperChar(s[i]))
  }

  function LowerChar(c: char): char {
    if 'A' <= c <= 'Z' then 'a' + (c - 'A') else c
  }

  function Lower(s: string): string {
    seq(|s|, i requires 0 <= i < |s| => LowerChar(s[i]))
  }

  const FILLER := {"branch", "the", "of", "and", "office", "workshop", "ltd", "limited", "plc", "nigeria", "group",
        "hq", "head"}

  function Initials(words: seq<string>): (s: string)
    requires forall w :: w in words ==> w != ""
    ensures |s| == |words|
  {
    seq(|words|, i requires 0 <= i < |words| => assert words[i] in words; words[i][0])
  }

  function TakeWords(words: seq<string>, n: nat): (first: seq<string>)
    ensures |first| == (if |words| <= n then |words| else n) && forall w :: w in first ==> w in words
  {
    if |words| <= n then words else words[..n]
  }

  function OrganisationCode(nfkd: string -> string, name: string): string {
    var words := Words(LettersOf(nfkd, name));
    WordChars(LettersOf(nfkd, name));
    if |words| == 0 then "EJO"
    else if |words| == 1 then Upper(Take(words[0], 3))
    else Upper(Initials(TakeWords(words, 3)))
  }

  function KeepAlnum(s: string): (kept: string)
    ensures forall c :: c in kept ==> IsAlnum(c)
  {
    if s == "" then "" else (if IsAlnum(s[0]) then [s[0]] else "") + KeepAlnum(s[1..])
  }

  function Meaningful(words: seq<string>): (kept: seq<string>)
    ensures forall w :: w in kept ==> w in words
  {
    if words == [] then []
    else (if Lower(words[0]) in FILLER then [] else [words[0]]) + Meaningful(words[1..])
  }

  /** `padEnd(3, 'X')` */
  function PadEnd3(s: string): string {
    if |s| >= 3 then s else s + seq(3 - |s|, _ => 'X')
  }

  function BranchCode(nfkd: string -> string, name: string, code: Option<string>): string {
    var own := Upper(KeepAlnum(if code.Some? then code.value else ""));
    if |own| >= 2 then Take(own, 4)
    else
      var words := Words(LettersOf(nfkd, name));
      WordChars(LettersOf(nfkd, name));
      var pick := if Meaningful(words) != [] then Meaningful(words) else words;
      if |pick| == 0 then "BR"
      else if |pick| == 1 then PadEnd3(Upper(Take(pick[0], 3)))
      else Upper(Initials(TakeWords(pick, 3)))
  }

  /** Capital letters and digits only: in particular no hyphen. */
  ghost predicate IsCode(s: string) {
    s != "" && forall c :: c in s ==> 'A' <= c <= 'Z' || IsDigit(c)
  }

  lemma {:induction false} UpperIsCode(s: string)
    requires s != "" && forall c :: c in s ==> IsAlnum(c)
    ensures IsCode(Upper(s))
  {
    forall c | c in Upper(s) ensures 'A' <= c <= 'Z' || IsDigit(c) {
      var i :| 0 <= i < |s| && c == UpperChar(s[i]);
      assert s[i] in s;
    }
  }

  lemma {:induction false} TrimmedChars(s: string, c: char)
    ensures c in TrimStart(s) ==> c in s
    ensures c in TrimEnd(s) ==> c in s
  {
    if s != "" {
      if IsSpace(s[0]) {
        TrimmedChars(s[1..], c);
      }
      if IsSpace(s[|s| - 1]) {
        TrimmedChars(s[..|s| - 1], c);
      }
    }
  }

  lemma {:induction false} WordsAreAlnum(nfkd: string -> string, v: string)
    ensures forall w :: w in Words(LettersOf(nfkd, v)) ==> w != "" && forall c :: c in w ==> IsAlnum(c)
  {
    var text := LettersOf(nfkd, v);
    WordChars(text);
    forall w, c | w in Words(text) && c in w ensures IsAlnum(c) {
      TrimmedChars(TrimStart(Blank(nfkd(v))), c);
      TrimmedChars(Blank(nfkd(v)), c);
    }
  }

  lemma {:induction false} InitialsAreAlnum(words: seq<string>)
    requires forall w :: w in words ==> w != "" && forall c :: c in w ==> IsAlnum(c)
    ensures forall c :: c in Initials(words) ==> IsAlnum(c)
  {
    forall c | c in Initials(words) ensures IsAlnum(c) {
      var i :| 0 <= i < |words| && c == Initials(words)[i];
      assert words[i] in words;
    }
  }

  /**
   Every organisation gets one to three capitals or digits; a single one exactly when its name is one word of one
   letter.
   */
  lemma {:induction false} OrganisationCodeIsCode(nfkd: string -> string, name: string)
    ensures var org, words := OrganisationCode(nfkd, name), Words(LettersOf(nfkd, name));
            IsCode(org) && |org| <= 3 && (|org| == 1 <==> |words| == 1 && |words[0]| == 1)
  {
    var words := Words(LettersOf(nfkd, name));
    WordsAreAlnum(nfkd, name);
    if |words| == 1 {
      assert words[0] in words;
      UpperIsCode(Take(words[0], 3));
    } else if |words| >= 2 {
      InitialsAreAlnum(TakeWords(words, 3));
      UpperIsCode(Initials(TakeWords(words, 3)));
    }
  }

  lemma {:induction false} LastWordOfExample()
    ensures Words(" Ltd") == ["Ltd"]
  {
    assert "Ltd"[1..] == "td" && "td"[1..] == "d" && "d"[1..] == "";
    assert WordLength("d") == 1 && WordLength("td") == 2;
    assert "Ltd"[3..] == "" && "Ltd"[..3] == "Ltd" && " Ltd"[1..] == "Ltd";
  }

  lemma {:induction false} FirstWordOfExample()
    ensures WordLength("3M Ltd") == 2
  {
    assert "3M Ltd"[1..] == "M Ltd" && "M Ltd"[1..] == " Ltd";
    assert WordLength(" Ltd") == 0 && WordLength("M Ltd") == 1;
  }

  lemma {:induction false} WordsOfExample()
    ensures Words("3M Ltd") == ["3M", "Ltd"]
  {
    LastWordOfExample();
    FirstWordOfExample();
    assert "3M Ltd"[..2] == "3M" && "3M Ltd"[2..] == " Ltd";
  }

  lemma {:induction false} LettersOfExample(nfkd: string -> string)
    requires nfkd("3M Ltd") == "3M Ltd"
    ensures LettersOf(nfkd, "3M Ltd") == "3M Ltd"
  {
    assert Blank("3M Ltd") == "3M Ltd";
  }

  lemma {:induction false} InitialsOfExample()
    ensures Upper(Initials(["3M", "Ltd"])) == "3L"
  {
    assert Initials(["3M", "Ltd"]) == "3L";
  }

  /** Digits count as letters there: "3M Ltd" gives "3L". */
  lemma {:induction false} DigitInOrganisationCode(nfkd: string -> string)
    requires nfkd("3M Ltd") == "3M Ltd"
    ensures OrganisationCode(nfkd, "3M Ltd") == "3L"
  {
    LettersOfExample(nfkd);
    WordsOfExample();
    InitialsOfExample();
    TwoWords(nfkd, "3M Ltd");
  }

  lemma {:induction false} TwoWords(nfkd: string -> string, name: string)
    requires |Words(LettersOf(nfkd, name))| == 2
    requires forall w :: w in Words(LettersOf(nfkd, name)) ==> w != ""
    ensures OrganisationCode(nfkd, name) == Upper(Initials(Words(LettersOf(nfkd, name))))
  {
  }

  /** A branch's code, whatever its name and own code: two to four capitals or digits. */
  lemma {:induction false} BranchCodeIsCode(nfkd: string -> string, name: string, code: Option<string>)
    ensures IsCode(BranchCode(nfkd, name, code))
    ensures 2 <= |BranchCode(nfkd, name, code)| <= 4
  {
    var kept := KeepAlnum(if code.Some? then code.value else "");
    var words := Words(LettersOf(nfkd, name));
    WordsAreAlnum(nfkd, name);
    if |kept| >= 2 {
      UpperIsCode(kept);
    } else {
      var pick := if Meaningful(words) != [] then Meaningful(words) else words;
      if |pick| == 1 {
        assert pick[0] in pick;
        UpperIsCode(Take(pick[0], 3));
      } else if |pick| >= 2 {
        InitialsAreAlnum(TakeWords(pick, 3));
        UpperIsCode(Initials(TakeWords(pick, 3)));
      }
    }
  }

  // ----- a code no earlier branch has

  /** The n-th code tried: the base itself, then base2, base3, ... */
  function Candidate(base: string, n: nat): string {
    if n <= 1 then base else base + Decimal(n)
  }

  lemma {:induction false} CandidatesDiffer(base: string, i: nat, j: nat)
    requires 1 <= i < j
    ensures Candidate(base, i) != Candidate(base, j)
  {
    if i > 1 && Candidate(base, i) == Candidate(base, j) {
      assert Candidate(base, i)[|base|..] == Decimal(i) && Candidate(base, j)[|base|..] == Decimal(j);
      DecimalValue(i);
      DecimalValue(j);
    }
  }

  ghost predicate AllUsed(base: string, used: set<string>, n: nat) {
    forall i :: 1 <= i <= n ==> Candidate(base, i) in used
  }

  /** Pigeonhole: no more candidates can be taken than there are codes in use. */
  lemma {:induction false} Pigeonhole(base: string, used: set<string>, n: nat)
    requires AllUsed(base, used, n)
    ensures n <= |used|
  {
    if n > 0 {
      var last := Candidate(base, n);
      forall i | 1 <= i <= n - 1 ensures Candidate(base, i) in used - {last} {
        CandidatesDiffer(base, i, n);
      }
      Pigeonhole(base, used - {last}, n - 1);
    }
  }

  /** The first candidate not in use, from the n-th on. */
  ghost function FreshFrom(base: string, used: set<string>, n: nat): (code: string)
    requires n >= 1 && AllUsed(base, used, n - 1)
    ensures code !in used
    decreases |used| + 1 - n
  {
    Pigeonhole(base, used, n - 1);
    if Candidate(base, n) !in used then Candidate(base, n)
    else
      Pigeonhole(base, used, n);
      FreshFrom(base, used, n + 1)
  }

  ghost function Fresh(base: string, used: set<string>): string {
    FreshFrom(base, used, 1)
  }

  /** What is chosen: the earliest free candidate, found within one more step than there are codes in use. */
  lemma {:induction false} FreshIsEarliest(base: string, used: set<string>, n: nat) returns (k: nat)
    requires n >= 1 && AllUsed(base, used, n - 1)
    ensures FreshFrom(base, used, n) == Candidate(base, k) && Candidate(base, k) !in used
    ensures n <= k <= |used| + 1 && AllUsed(base, used, k - 1)
    decreases |used| + 1 - n
  {
    Pigeonhole(base, used, n - 1);
    if Candidate(base, n) !in used {
      k := n;
    } else {
      Pigeonhole(base, used, n);
      k := FreshIsEarliest(base, used, n + 1);
    }
  }

  // ----- uniqueBranchPrefixes

  datatype Branch = Branch(id: string, name: string, code: Option<string>)

  function Elements<T>(s: seq<T>): set<T> {
    set x | x in s
  }

  /** The codes of the branches, oldest first. */
  ghost function Codes(nfkd: string -> string, branches: seq<Branch>): (codes: seq<string>)
    ensures |codes| == |branches|
  {
    if branches == [] then []
    else
      var before, b := Codes(nfkd, branches[..|branches| - 1]), branches[|branches| - 1];
      before + [Fresh(BranchCode(nfkd, b.name, b.code), Elements(before))]
  }

  /** Branch id to prefix; of two branches with one id the later one counts. */
  ghost function Prefixes(nfkd: string -> string, organisation: string, branches: seq<Branch>): map<string, string> {
    if branches == [] then map[]
    else
      var n := |branches| - 1;
      var prefix := OrganisationCode(nfkd, organisation) + "-" + Codes(nfkd, branches)[n];
      Prefixes(nfkd, organisation, branches[..n])[branches[n].id := prefix]
  }

  /** The inner loop: `for (n = 2; used.has(code); n += 1) code = base + n`. */
  method FreshCode(base: string, used: set<string>) returns (code: string)
    ensures code == Fresh(base, used)
  {
    code := base;
    var n := 2;
    while code in used
      invariant n >= 2 && code == Candidate(base, n - 1) && AllUsed(base, used, n - 2)
      invariant Fresh(base, used) == FreshFrom(base, used, n - 1)
      decreases |used| + 2 - n
    {
      Pigeonhole(base, used, n - 1);
      code := base + Decimal(n);
      n := n + 1;
    }
  }

  method UniqueBranchPrefixes(nfkd: string -> string, organisation: string, branches: seq<Branch>)
    returns (out: map<string, string>)
    ensures out == Prefixes(nfkd, organisation, branches)
  {
    var org := OrganisationCode(nfkd, organisation);
    var used: set<string> := {};
    out := map[];
    for i := 0 to |branches|
      invariant used == Elements(Codes(nfkd, branches[..i]))
      invariant out == Prefixes(nfkd, organisation, branches[..i])
    {
      var b := branches[i];
      var code := FreshCode(BranchCode(nfkd, b.name, b.code), used);
      assert branches[..i + 1][..i] == branches[..i];
      assert Codes(nfkd, branches[..i + 1]) == Codes(nfkd, branches[..i]) + [code];
      used := used + {code};
      out := out[b.id := org + "-" + code];
    }
    assert branches[..|branches|] == branches;
  }

  /** No two branches share a code. */
  lemma {:induction false} CodesDistinct(nfkd: string -> string, branches: seq<Branch>)
    ensures forall i, j :: 0 <= i < j < |branches| ==> Codes(nfkd, branches)[i] != Codes(nfkd, branches)[j]
  {
    if branches != [] {
      var before := Codes(nfkd, branches[..|branches| - 1]);
      CodesDistinct(nfkd, branches[..|branches| - 1]);
      assert forall i :: 0 <= i < |before| ==> before[i] in Elements(before);
    }
  }

  /** Adding newer branches changes no earlier branch's code. */
  lemma {:induction false} CodesStable(nfkd: string -> string, branches: seq<Branch>, newer: seq<Branch>)
    ensures Codes(nfkd, branches + newer)[..|branches|] == Codes(nfkd, branches)
  {
    if newer == [] {
      assert branches + newer == branches;
    } else {
      assert (branches + newer)[..|branches + newer| - 1] == branches + newer[..|newer| - 1];
      CodesStable(nfkd, branches, newer[..|newer| - 1]);
    }
  }

  ghost predicate DistinctIds(branches: seq<Branch>) {
    forall i, j :: 0 <= i < j < |branches| ==> branches[i].id != branches[j].id
  }

  lemma {:induction false} EarlierCode(nfkd: string -> string, branches: seq<Branch>, i: nat)
    requires i < |branches| - 1
    ensures Codes(nfkd, branches)[i] == Codes(nfkd, branches[..|branches| - 1])[i]
  {
  }

  lemma {:induction false} LastPrefix(nfkd: string -> string, organisation: string, branches: seq<Branch>)
    requires branches != []
    ensures var n := |branches| - 1;
            Prefixes(nfkd, organisation, branches)
            == Prefixes(nfkd, organisation, branches[..n])
               [branches[n].id := OrganisationCode(nfkd, organisation) + "-" + Codes(nfkd, branches)[n]]
  {
  }

  /** No later branch has this one's id. */
  ghost predicate LastOfId(branches: seq<Branch>, i: int) {
    0 <= i < |branches| && forall j :: i < j < |branches| ==> branches[j].id != branches[i].id
  }

  /** The map gives an id the prefix of the last branch that has it, and holds no other ids. */
  lemma {:induction false} PrefixOf(nfkd: string -> string, organisation: string, branches: seq<Branch>, i: nat)
    requires LastOfId(branches, i)
    ensures branches[i].id in Prefixes(nfkd, organisation, branches)
    ensures Prefixes(nfkd, organisation, branches)[branches[i].id]
         == OrganisationCode(nfkd, organisation) + "-" + Codes(nfkd, branches)[i]
  {
    var n := |branches| - 1;
    LastPrefix(nfkd, organisation, branches);
    if i < n {
      assert branches[i].id != branches[n].id;
      assert LastOfId(branches[..n], i);
      EarlierCode(nfkd, branches, i);
      PrefixOf(nfkd, organisation, branches[..n], i);
    }
  }

  lemma {:induction false} PrefixKeys(nfkd: string -> string, organisation: string, branches: seq<Branch>)
    ensures Prefixes(nfkd, organisation, branches).Keys == set b | b in branches :: b.id
  {
    if branches != [] {
      var init, last := branches[..|branches| - 1], branches[|branches| - 1];
      PrefixKeys(nfkd, organisation, init);
      LastPrefix(nfkd, organisation, branches);
      assert forall b :: b in branches <==> b in init || b == last;
    }
  }

  /** An existing branch keeps its prefix when newer branches are added. */
  lemma {:induction false} PrefixStable(nfkd: string -> string, organisation: string, branches: seq<Branch>,
                                        newer: seq<Branch>, i: nat)
    requires DistinctIds(branches + newer) && i < |branches|
    ensures branches[i].id in Prefixes(nfkd, organisation, branches)
            && branches[i].id in Prefixes(nfkd, organisation, branches + newer)
    ensures Prefixes(nfkd, organisation, branches + newer)[branches[i].id]
            == Prefixes(nfkd, organisation, branches)[branches[i].id]
  {
    var all := branches + newer;
    assert forall j :: 0 <= j < |branches| ==> all[j] == branches[j];
    PrefixOf(nfkd, organisation, branches, i);
    PrefixOf(nfkd, organisation, all, i);
    CodesStable(nfkd, branches, newer);
    assert Codes(nfkd, all)[i] == Codes(nfkd, all)[..|branches|][i];
  }

  lemma {:induction false} CandidateIsCode(base: string, n: nat)
    requires IsCode(base)
    ensures IsCode(Candidate(base, n))
  {
    if n > 1 {
      forall c | c in Candidate(base, n) ensures 'A' <= c <= 'Z' || IsDigit(c) {
        if c !in base {
          assert c in Decimal(n);
        }
      }
    }
  }

  lemma {:induction false} CodesAreCodes(nfkd: string -> string, branches: seq<Branch>, i: nat)
    requires i < |branches|
    ensures IsCode(Codes(nfkd, branches)[i])
  {
    var n := |branches| - 1;
    if i < n {
      CodesAreCodes(nfkd, branches[..n], i);
    } else {
      var b := branches[n];
      var base, used := BranchCode(nfkd, b.name, b.code), Elements(Codes(nfkd, branches[..n]));
      BranchCodeIsCode(nfkd, b.name, b.code);
      var k := FreshIsEarliest(base, used, 1);
      CandidateIsCode(base, k);
    }
  }

  // ----- formatting and reading IDs

  /** `String(n).padStart(4, '0')` */
  function PadStart4(n: nat): (s: string)
    ensures |s| >= 4 && forall i :: 0 <= i < |s| ==> IsDigit(s[i])
  {
    if n < 10000 then Field(n, 4)
    else
      DecimalFits(n, 4);
      assert Pow10(4) == 10 * (10 * Pow10(2)) && Pow10(2) == 100;
      Decimal(n)
  }

  function FormatEmployeeId(prefix: string, n: nat): string {
    prefix + "-" + PadStart4(n)
  }

  predicate AllDigits(s: string) {
    forall i :: 0 <= i < |s| ==> IsDigit(s[i])
  }

  function SequenceOf(prefix: string, id: string): Option<int> {
    if !(prefix + "-" <= id) then None
    else
      var rest := id[|prefix| + 1..];
      if 1 <= |rest| <= 9 && AllDigits(rest) then Some(Value(rest)) else None
  }

  lemma {:induction false} PadStart4Value(n: nat)
    ensures Value(PadStart4(n)) == n
    ensures |PadStart4(n)| <= 9 <==> n <= 999_999_999
  {
    if n < 10000 {
      assert Pow10(4) == 10 * (10 * Pow10(2)) && Pow10(2) == 100;
      FieldValue(n, 4);
    } else {
      DecimalValue(n);
      DecimalFits(n, 9);
      NineDigits();
    }
  }

  /** Reading an ID under its own prefix recovers the number exactly while it has at most nine digits. */
  lemma {:induction false} ReadsBack(prefix: string, n: nat)
    ensures SequenceOf(prefix, FormatEmployeeId(prefix, n)) == if n <= 999_999_999 then Some(n) else None
  {
    var id := FormatEmployeeId(prefix, n);
    assert id[..|prefix| + 1] == prefix + "-";
    assert id[|prefix| + 1..] == PadStart4(n);
    PadStart4Value(n);
  }

  /** A text splits in one way into a part without hyphens, a hyphen, and a rest without hyphens. */
  lemma {:induction false} OneHyphen(a: string, x: string, b: string, y: string)
    requires '-' !in a && '-' !in b && '-' !in x
    requires b + "-" + y == a + "-" + x || b + "-" <= a + "-" + x
    ensures a == b
  {
    var s := a + "-" + x;
    assert forall i :: 0 <= i < |s| && s[i] == '-' ==> i == |a|;
    assert s[|b|] == '-';
    assert s[..|a|] == a && s[..|b|] == b;
  }

  /** Under another branch's prefix an ID is not ours, even when one code extends the other, as ISO2 does ISO. */
  lemma {:induction false} OtherPrefixRefuses(org: string, own: string, other: string, n: nat)
    requires IsCode(own) && IsCode(other) && own != other
    ensures SequenceOf(org + "-" + other, FormatEmployeeId(org + "-" + own, n)) == None
  {
    var id, prefix := FormatEmployeeId(org + "-" + own, n), org + "-" + other;
    if prefix + "-" <= id {
      var k := |org| + 1;
      assert id[k..] == own + "-" + PadStart4(n);
      assert (prefix + "-")[k..] == other + "-";
      assert other + "-" <= id[k..] by {
        assert id[..|prefix| + 1] == prefix + "-";
        assert id[k..][..|other| + 1] == id[..|prefix| + 1][k..];
      }
      NoHyphens(own, n);
      OneHyphen(own, PadStart4(n), other, "");
    }
  }

  lemma {:induction false} NoHyphens(code: string, n: nat)
    requires IsCode(code)
    ensures '-' !in code && '-' !in PadStart4(n)
  {
    assert !IsDigit('-');
  }

  /** Two formatted IDs of one organisation are equal only for the same code and the same number, however long. */
  lemma {:induction false} FormatInjective(org: string, c: string, n: nat, d: string, m: nat)
    requires IsCode(c) && IsCode(d)
    ensures FormatEmployeeId(org + "-" + c, n) == FormatEmployeeId(org + "-" + d, m) <==> c == d && n == m
  {
    var x, y := FormatEmployeeId(org + "-" + c, n), FormatEmployeeId(org + "-" + d, m);
    if x == y {
      assert x[|org| + 1..] == c + "-" + PadStart4(n);
      assert y[|org| + 1..] == d + "-" + PadStart4(m);
      NoHyphens(c, n);
      NoHyphens(d, m);
      OneHyphen(c, PadStart4(n), d, PadStart4(m));
      assert x[|org| + 1..][|c| + 1..] == PadStart4(n);
      assert y[|org| + 1..][|d| + 1..] == PadStart4(m);
      PadStart4Value(n);
      PadStart4Value(m);
    }
  }

  /** Over the branches of one organisation, an ID tells both the branch and the number. */
  lemma {:induction false} IdsIdentify(nfkd: string -> string, organisation: string, branches: seq<Branch>, i: nat,
                                       n: nat, j: nat, m: nat)
    requires i < |branches| && j < |branches|
    ensures var org, codes := OrganisationCode(nfkd, organisation), Codes(nfkd, branches);
            && (FormatEmployeeId(org + "-" + codes[i], n) == FormatEmployeeId(org + "-" + codes[j], m)
                <==> i == j && n == m)
            && SequenceOf(org + "-" + codes[j], FormatEmployeeId(org + "-" + codes[i], n))
                 == if i == j && n <= 999_999_999 then Some(n) else None
  {
    var org, codes := OrganisationCode(nfkd, organisation), Codes(nfkd, branches);
    CodesDistinct(nfkd, branches);
    CodesAreCodes(nfkd, branches, i);
    CodesAreCodes(nfkd, branches, j);
    FormatInjective(org, codes[i], n, codes[j], m);
    if i == j {
      ReadsBack(org + "-" + codes[i], n);
    } else {
      OtherPrefixRefuses(org, codes[i], codes[j], n);
    }
  }

  // ----- the next free number

  /** The largest number issued under a prefix; 0 when there is none. */
  function Largest(prefix: string, ids: seq<string>): (max: int)
    ensures 0 <= max
    ensures forall id :: id in ids && SequenceOf(prefix, id).Some? ==> SequenceOf(prefix, id).value <= max
  {
    if ids == [] then 0
    else
      var rest, own := Largest(prefix, ids[1..]), SequenceOf(prefix, ids[0]);
      if own.Some? && own.value > rest then own.value else rest
  }

  function NextEmployeeId(prefix: string, ids: seq<string>): string {
    FormatEmployeeId(prefix, Largest(prefix, ids) + 1)
  }

  lemma {:induction false} ShortValue(s: string)
    requires AllDigits(s)
    ensures 0 <= Value(s) < Pow10(|s|)
  {
    if s != "" {
      ShortValue(s[..|s| - 1]);
    }
  }

  lemma {:induction false} NineDigits()
    ensures Pow10(9) == 1_000_000_000
  {
    assert Pow10(9) == 10 * (10 * (10 * Pow10(6)));
    assert Pow10(6) == 10 * (10 * Pow10(4)) && Pow10(4) == 10 * (10 * Pow10(2)) && Pow10(2) == 100;
  }

  lemma {:induction false} NumberBound(prefix: string, id: string)
    requires SequenceOf(prefix, id).Some?
    ensures 0 <= SequenceOf(prefix, id).value <= 999_999_999
  {
    var rest := id[|prefix| + 1..];
    ShortValue(rest);
    Pow10Grows(|rest|, 9);
    NineDigits();
  }

  lemma {:induction false} LargestBound(prefix: string, ids: seq<string>)
    ensures Largest(prefix, ids) <= 999_999_999
  {
    if ids != [] {
      LargestBound(prefix, ids[1..]);
      if SequenceOf(prefix, ids[0]).Some? {
        NumberBound(prefix, ids[0]);
      }
    }
  }

  lemma {:induction false} LargestAnd(prefix: string, ids: seq<string>, id: string)
    ensures var own, max := SequenceOf(prefix, id), Largest(prefix, ids);
            Largest(prefix, ids + [id]) == if own.Some? && own.value > max then own.value else max
  {
    if ids == [] {
      assert [id][1..] == [] && ids + [id] == [id];
      if SequenceOf(prefix, id).Some? {
        NumberBound(prefix, id);
      }
    } else {
      assert (ids + [id])[1..] == ids[1..] + [id];
      LargestAnd(prefix, ids[1..], id);
    }
  }

  /** The ID offered next is new, unless nine digits are used up and the first ID beyond them has been issued. */
  lemma {:induction false} NextIsNew(prefix: string, ids: seq<string>)
    ensures NextEmployeeId(prefix, ids) in ids
       <==> Largest(prefix, ids) == 999_999_999 && FormatEmployeeId(prefix, 1_000_000_000) in ids
    ensures Largest(prefix, ids) < 999_999_999 ==>
              SequenceOf(prefix, NextEmployeeId(prefix, ids)) == Some(Largest(prefix, ids) + 1)
  {
    LargestBound(prefix, ids);
    ReadsBack(prefix, Largest(prefix, ids) + 1);
  }

  /** Issuing the next ID raises the largest number, until there are no more of nine digits. */
  lemma {:induction false} LargestAfterNext(prefix: string, ids: seq<string>)
    ensures var n := Largest(prefix, ids);
            Largest(prefix, ids + [NextEmployeeId(prefix, ids)]) == if n < 999_999_999 then n + 1 else n
  {
    LargestBound(prefix, ids);
    LargestAnd(prefix, ids, NextEmployeeId(prefix, ids));
    ReadsBack(prefix, Largest(prefix, ids) + 1);
  }

  /** Issuing the next ID makes another one next exactly while numbers have at most nine digits. */
  lemma {:induction false} NextRepeatsAfterNineDigits(prefix: string, ids: seq<string>)
    ensures var next := NextEmployeeId(prefix, ids);
            NextEmployeeId(prefix, ids + [next]) == next <==> Largest(prefix, ids) == 999_999_999
  {
    var n := Largest(prefix, ids);
    LargestBound(prefix, ids);
    LargestAfterNext(prefix, ids);
    SameNumber(prefix, n + 1, n + 2);
  }

  lemma {:induction false} SameNumber(prefix: string, n: nat, m: nat)
    ensures FormatEmployeeId(prefix, n) == FormatEmployeeId(prefix, m) <==> n == m
  {
    assert FormatEmployeeId(prefix, n)[|prefix| + 1..] == PadStart4(n);
    assert FormatEmployeeId(prefix, m)[|prefix| + 1..] == PadStart4(m);
    PadStart4Value(n);
    PadStart4Value(m);
  }
}

/**
 What organisation and branch codes are made of (apps/portal/lib/employee-id.ts):
 whose first letters, which words are passed over, which suffixes are tried.
 */
module StaffCodes {
  import opened Wrappers
  import opened JsStrings
  import opened Decimals
  import opened EmployeeIds

  // ----- capitals

  /** `u` is `c`, as a capital if it is a letter. */
  predicate IsCapitalOf(u: char, c: char) {
    if 'a' <= c <= 'z' then u as int == c as int - 32 else u == c
  }

  /** `code` is the capitals of these characters. */
  ghost predicate Capitals(code: string, s: string) {
    |code| == |s| && forall i :: 0 <= i < |s| ==> IsCapitalOf(code[i], s[i])
  }

  lemma {:induction false} UpperIsCapitals(s: string)
    ensures Capitals(Upper(s), s)
  {
  }

  function Least(a: nat, b: nat): nat {
    if a < b then a else b
  }

  /** `code` has the first letters of the first three words. */
  ghost predicate HasInitials(code: string, words: seq<string>) {
    && |code| == Least(3, |words|)
    && forall i :: 0 <= i < |code| ==> words[i] != "" && IsCapitalOf(code[i], words[i][0])
  }

  /** The words of a name: its runs of letters and digits. */
  function NameWords(nfkd: string -> string, name: string): seq<string> {
    Words(LettersOf(nfkd, name))
  }

  /** A letter or a digit, by code point. */
  predicate IsLetterOrDigit(c: char) {
    48 <= c as int <= 57 || 65 <= c as int <= 90 || 97 <= c as int <= 122
  }

  /** `t` is `s` with everything but letters, digits and spaces turned into spaces. */
  ghost predicate Blanked(t: string, s: string) {
    && |t| == |s|
    && forall i :: 0 <= i < |s| ==> t[i] == if IsLetterOrDigit(s[i]) then s[i] else ' '
  }

  /** Anything but letters and digits keeps the words of a name apart. */
  lemma {:induction false} NameWordsOfBlank(nfkd: string -> string, name: string)
    ensures Blanked(Blank(nfkd(name)), nfkd(name))
    ensures NameWords(nfkd, name) == Words(Blank(nfkd(name)))
  {
    TrimKeepsWords(Blank(nfkd(name)));
  }

  lemma {:induction false} InitialsOfWords(words: seq<string>)
    requires forall w :: w in words ==> w != ""
    ensures HasInitials(Upper(Initials(TakeWords(words, 3))), words)
  {
    var first := TakeWords(words, 3);
    UpperIsCapitals(Initials(first));
    forall i | 0 <= i < |first| ensures words[i] != "" && Initials(first)[i] == words[i][0] {
      assert words[i] in words && first[i] == words[i];
    }
  }

  /** EJO for no words, the first three letters of one word, the initials of the first three of more. */
  lemma {:induction false} OrganisationLetters(nfkd: string -> string, name: string)
    ensures var org, words := OrganisationCode(nfkd, name), NameWords(nfkd, name);
            && (|words| == 0 ==> org == "EJO")
            && (|words| == 1 ==> Capitals(org, words[0][..Least(3, |words[0]|)]))
            && (|words| >= 2 ==> HasInitials(org, words))
  {
    var words := NameWords(nfkd, name);
    WordsAreAlnum(nfkd, name);
    if |words| == 1 {
      UpperIsCapitals(Take(words[0], 3));
    } else if |words| >= 2 {
      InitialsOfWords(words);
    }
  }

  // ----- branches

  /** A word that says nothing about which branch it is. */
  predicate IsFiller(word: string) {
    Lower(word) in {"branch", "the", "of", "and", "office", "workshop", "ltd", "limited", "plc", "nigeria", "group",
                    "hq",
                    "head"}
  }

  lemma {:induction false} KeepConcat(a: string, b: string)
    ensures KeepAlnum(a + b) == KeepAlnum(a) + KeepAlnum(b)
  {
    if a == "" {
      assert a + b == b;
    } else {
      assert (a + b)[1..] == a[1..] + b;
      KeepConcat(a[1..], b);
    }
  }

  /** Of an own code the letters and digits are kept, in place. */
  lemma {:induction false} EachCharacter(a: string, c: char, b: string)
    ensures KeepAlnum("") == ""
    ensures KeepAlnum(a + [c] + b) == KeepAlnum(a) + (if IsLetterOrDigit(c) then [c] else "") + KeepAlnum(b)
  {
    KeepConcat(a + [c], b);
    KeepConcat(a, [c]);
    assert [c][1..] == "";
  }

  /** A word is compared with the fillers in small letters. */
  lemma {:induction false} LowerIsSmall(s: string, i: nat)
    requires i < |s|
    ensures |Lower(s)| == |s|
    ensures Lower(s)[i] as int == if 65 <= s[i] as int <= 90 then s[i] as int + 32 else s[i] as int
  {
  }

  /** An own code with two letters or digits or more decides, whatever the name: its first four. */
  lemma {:induction false} OwnCodeDecides(nfkd: string -> string, name: string, code: string)
    requires |KeepAlnum(code)| >= 2
    ensures var kept := KeepAlnum(code); Capitals(BranchCode(nfkd, name, Some(code)), kept[..Least(4, |kept|)])
  {
    UpperIsCapitals(KeepAlnum(code));
  }

  /** Otherwise the words that are no fillers do; all of them if there are only fillers. */
  lemma {:induction false} BranchLetters(nfkd: string -> string, name: string, code: Option<string>, pick: seq<string>)
    requires code.Some? ==> |KeepAlnum(code.value)| < 2
    requires pick == if Meaningful(NameWords(nfkd, name)) != [] then Meaningful(NameWords(nfkd, name))
             else NameWords(nfkd, name)
    ensures var own := BranchCode(nfkd, name, code);
            && (|pick| == 0 ==> own == "BR")
            && (|pick| == 1 ==>
                 && |own| == 3 && Capitals(own[..Least(3, |pick[0]|)], pick[0][..Least(3, |pick[0]|)])
                 && forall i :: |pick[0]| <= i < 3 ==> own[i] == 'X')
            && (|pick| >= 2 ==> HasInitials(own, pick))
  {
    WordsAreAlnum(nfkd, name);
    if |pick| == 1 {
      UpperIsCapitals(Take(pick[0], 3));
    } else if |pick| >= 2 {
      InitialsOfWords(pick);
    }
  }

  lemma {:induction false} MeaningfulConcat(a: seq<string>, b: seq<string>)
    ensures Meaningful(a + b) == Meaningful(a) + Meaningful(b)
  {
    if a == [] {
      assert a + b == b;
    } else {
      assert (a + b)[1..] == a[1..] + b;
      MeaningfulConcat(a[1..], b);
    }
  }

  /** Each word in its place, fillers left out. */
  lemma {:induction false} EachWord(a: seq<string>, w: string, b: seq<string>)
    ensures Meaningful([]) == []
    ensures Meaningful(a + [w] + b) == Meaningful(a) + (if IsFiller(w) then [] else [w]) + Meaningful(b)
  {
    MeaningfulConcat(a + [w], b);
    MeaningfulConcat(a, [w]);
    assert [w][1..] == [];
  }

  /** A filler more in a name changes nothing while there is a word that is none. */
  lemma {:induction false} FillerChangesNothing(nfkd: string -> string, name: string, longer: string,
                                                code: Option<string>,
                                                a: seq<string>, filler: string, b: seq<string>)
    requires IsFiller(filler) && (exists w :: w in a + b && !IsFiller(w))
    requires NameWords(nfkd, name) == a + b && NameWords(nfkd, longer) == a + [filler] + b
    ensures BranchCode(nfkd, longer, code) == BranchCode(nfkd, name, code)
  {
    FillerLeftOut(a, filler, b);
    var w :| w in a + b && !IsFiller(w);
    HasMeaningful(a + b, w);
  }

  lemma {:induction false} FillerLeftOut(a: seq<string>, filler: string, b: seq<string>)
    requires IsFiller(filler)
    ensures Meaningful(a + [filler] + b) == Meaningful(a + b)
  {
    EachWord(a, filler, b);
    MeaningfulConcat(a, b);
    assert Meaningful(a) + [] + Meaningful(b) == Meaningful(a) + Meaningful(b);
  }

  lemma {:induction false} HasMeaningful(words: seq<string>, w: string)
    requires w in words && !IsFiller(w)
    ensures w in Meaningful(words)
  {
    if words[0] != w {
      assert w in words[1..];
      HasMeaningful(words[1..], w);
    }
  }

  // ----- suffixes

  /** The codes tried before the n-th. */
  ghost function Tried(base: string, n: int): set<string> {
    set i | 1 <= i < n :: Candidate(base, i)
  }

  lemma {:induction false} TakenUpTo(base: string, used: set<string>, n: nat)
    requires n >= 1 && used == Tried(base, n)
    ensures Fresh(base, used) == Candidate(base, n)
  {
    var k := FreshIsEarliest(base, used, 1);
    assert forall i :: 1 <= i < n ==> Candidate(base, i) in used;
    forall i | 1 <= i < n ensures Candidate(base, i) != Candidate(base, n) {
      CandidatesDiffer(base, i, n);
    }
    assert Candidate(base, n) !in used;
  }

  /** The code tried n-th: the base alone, then with 2, 3 and so on written after it. */
  function Numbered(base: string, n: nat): string {
    if n == 1 then base else base + Decimal(n)
  }

  lemma {:induction false} LastCode(nfkd: string -> string, branches: seq<Branch>, base: string, before: seq<string>)
    requires branches != [] && before == Codes(nfkd, branches[..|branches| - 1])
    requires BranchCode(nfkd, branches[|branches| - 1].name, branches[|branches| - 1].code) == base
    requires Elements(before) == Tried(base, |branches|)
    ensures Codes(nfkd, branches)[|branches| - 1] == Candidate(base, |branches|)
  {
    TakenUpTo(base, Elements(before), |branches|);
  }

  /** All these branches would have this code. */
  ghost predicate AllHave(nfkd: string -> string, branches: seq<Branch>, base: string) {
    branches == [] ||
    (var b := branches[|branches| - 1];
     AllHave(nfkd, branches[..|branches| - 1], base) && BranchCode(nfkd, b.name, b.code) == base)
  }

  ghost predicate AllTried(codes: seq<string>, base: string) {
    forall j :: 0 <= j < |codes| ==> codes[j] == Candidate(base, j + 1)
  }

  lemma {:induction false} SameBaseTried(nfkd: string -> string, branches: seq<Branch>, base: string)
    requires AllHave(nfkd, branches, base)
    ensures AllTried(Codes(nfkd, branches), base)
  {
    if branches != [] {
      var before := Codes(nfkd, branches[..|branches| - 1]);
      SameBaseTried(nfkd, branches[..|branches| - 1], base);
      var last := Codes(nfkd, branches)[|branches| - 1];
      CodesAreTaken(before, base);
      LastCode(nfkd, branches, base, before);
      CodesLast(nfkd, branches);
      OneMoreTried(before, last, base);
    }
  }

  lemma {:induction false} CodesLast(nfkd: string -> string, branches: seq<Branch>)
    requires branches != []
    ensures var codes := Codes(nfkd, branches);
            codes == Codes(nfkd, branches[..|branches| - 1]) + [codes[|branches| - 1]]
  {
  }

  lemma {:induction false} OneMoreTried(before: seq<string>, last: string, base: string)
    requires AllTried(before, base) && last == Candidate(base, |before| + 1)
    ensures AllTried(before + [last], base)
  {
  }

  /** Branches that would all have one code get it, and with 2, 3 and so on, in order of their creation. */
  lemma {:induction false} SameBase(nfkd: string -> string, branches: seq<Branch>, base: string, i: nat)
    requires AllHave(nfkd, branches, base) && i < |branches|
    ensures Codes(nfkd, branches)[i] == Numbered(base, i + 1)
  {
    SameBaseTried(nfkd, branches, base);
  }

  lemma {:induction false} CodesAreTaken(codes: seq<string>, base: string)
    requires AllTried(codes, base)
    ensures Elements(codes) == Tried(base, |codes| + 1)
  {
    forall i | 1 <= i < |codes| + 1 ensures Candidate(base, i) in Elements(codes) {
      assert codes[i - 1] == Candidate(base, i);
    }
  }

  // ----- written out

  /** An ID ends in the number, with zeros before it up to four digits, and none for longer ones. */
  lemma {:induction false} FourDigits(prefix: string, n: nat)
    ensures var id := FormatEmployeeId(prefix, n);
            && prefix + "-" <= id && AllDigits(id[|prefix| + 1..]) && Value(id[|prefix| + 1..]) == n
            && (n <= 9999 ==> |id| == |prefix| + 5) && (n > 9999 ==> id[|prefix| + 1..] == Decimal(n))
  {
    var id := FormatEmployeeId(prefix, n);
    assert id[..|prefix| + 1] == prefix + "-" && id[|prefix| + 1..] == PadStart4(n);
    PadStart4Value(n);
  }

  /** Read back: any one to nine digits after the prefix and a hyphen, padded or not; anything else is not ours. */
  lemma {:induction false} ReadsAnyDigits(prefix: string, rest: string, id: string)
    ensures SequenceOf(prefix, prefix + "-" + rest)
         == if 1 <= |rest| <= 9 && AllDigits(rest) then Some(Value(rest)) else None
    ensures !(prefix + "-" <= id) ==> SequenceOf(prefix, id) == None
  {
    var own := prefix + "-" + rest;
    assert own[..|prefix| + 1] == prefix + "-" && own[|prefix| + 1..] == rest;
  }

  // ----- the codes the comments give as examples

  predicate IsWord(w: string) {
    w != "" && forall i :: 0 <= i < |w| ==> IsAlnum(w[i])
  }

  lemma {:induction false} BlankOfTwo(a: string, b: string)
    requires IsWord(a) && IsWord(b)
    ensures Blank(a + " " + b) == a + ([' '] + b)
  {
  }

  lemma {:induction false} WordsOfTwo(a: string, b: string)
    requires IsWord(a) && IsWord(b)
    ensures Words(a + ([' '] + b)) == [a, b]
  {
    WordsApart(a, [' '] + b);
    SpaceFirst(' ', b);
    OneWord(a);
    OneWord(b);
  }

  lemma {:induction false} NameOfTwo(nfkd: string -> string, a: string, b: string)
    requires IsWord(a) && IsWord(b) && nfkd(a + " " + b) == a + " " + b
    ensures NameWords(nfkd, a + " " + b) == [a, b]
  {
    NameWordsOfBlank(nfkd, a + " " + b);
    BlankOfTwo(a, b);
    WordsOfTwo(a, b);
  }

  lemma {:induction false} TwoLetters(code: string, words: seq<string>, first: char, second: char)
    requires |words| == 2 && HasInitials(code, words)
    requires IsCapitalOf(first, words[0][0]) && IsCapitalOf(second, words[1][0])
    ensures code == [first, second]
  {
  }

  /** "Kewalram Nigeria" gives KN. */
  lemma {:induction false} KewalramNigeria(nfkd: string -> string)
    requires nfkd("Kewalram Nigeria") == "Kewalram Nigeria"
    ensures OrganisationCode(nfkd, "Kewalram Nigeria") == "KN"
  {
    assert "Kewalram" + " " + "Nigeria" == "Kewalram Nigeria";
    NameOfTwo(nfkd, "Kewalram", "Nigeria");
    OrganisationLetters(nfkd, "Kewalram Nigeria");
    TwoLetters(OrganisationCode(nfkd, "Kewalram Nigeria"), ["Kewalram", "Nigeria"], 'K', 'N');
  }

  lemma {:induction false} NotFillers()
    ensures !IsFiller("Victoria") && !IsFiller("Island") && !IsFiller("Isolo") && IsFiller("Branch")
  {
    assert Lower("Branch") == "branch";
    assert Lower("Victoria")[0] == 'v' && Lower("Island")[1] == 's' && |Lower("Island")| == 6 && |Lower("Isolo")| == 5;
    assert Lower("Isolo")[0] == 'i' && Lower("Island")[0] == 'i';
  }

  /** "Victoria Island" gives VI. */
  lemma {:induction false} VictoriaIsland(nfkd: string -> string)
    requires nfkd("Victoria Island") == "Victoria Island"
    ensures BranchCode(nfkd, "Victoria Island", None) == "VI"
  {
    assert "Victoria" + " " + "Island" == "Victoria Island";
    NameOfTwo(nfkd, "Victoria", "Island");
    NotFillers();
    EachWord([], "Victoria", ["Island"]);
    EachWord([], "Island", []);
    assert [] + ["Victoria"] + ["Island"] == ["Victoria", "Island"] && [] + ["Island"] + [] == ["Island"];
    BranchLetters(nfkd, "Victoria Island", None, ["Victoria", "Island"]);
    TwoLetters(BranchCode(nfkd, "Victoria Island", None), ["Victoria", "Island"], 'V', 'I');
  }

  lemma {:induction false} ThreeLetters(code: string, word: string, first: char, second: char, third: char)
    requires |code| == 3 <= |word| && Capitals(code, word[..3])
    requires IsCapitalOf(first, word[0]) && IsCapitalOf(second, word[1]) && IsCapitalOf(third, word[2])
    ensures code == [first, second, third]
  {
    assert forall i :: 0 <= i < 3 ==> word[..3][i] == word[i];
  }

  lemma {:induction false} OneMeaningful(nfkd: string -> string, name: string, word: string)
    requires Meaningful(NameWords(nfkd, name)) == [word] && |word| >= 3
    ensures var own := BranchCode(nfkd, name, None); |own| == 3 && Capitals(own, word[..3])
  {
    BranchLetters(nfkd, name, None, [word]);
    var own := BranchCode(nfkd, name, None);
    assert own[..3] == own;
  }

  /** A name of one telling word and a filler gives the first three letters of the word. */
  lemma {:induction false} WordAndFiller(nfkd: string -> string, word: string, filler: string)
    requires IsWord(word) && IsWord(filler) && IsFiller(filler) && !IsFiller(word) && |word| >= 3
    requires nfkd(word + " " + filler) == word + " " + filler
    ensures var own := BranchCode(nfkd, word + " " + filler, None); |own| == 3 && Capitals(own, word[..3])
  {
    NameOfTwo(nfkd, word, filler);
    EachWord([], word, [filler]);
    EachWord([], filler, []);
    assert [] + [word] + [filler] == [word, filler] && [] + [filler] + [] == [filler];
    OneMeaningful(nfkd, word + " " + filler, word);
  }

  /** "Isolo Branch" gives ISO: the filler is passed over. */
  lemma {:induction false} IsoloBranch(nfkd: string -> string)
    requires nfkd("Isolo Branch") == "Isolo Branch"
    ensures BranchCode(nfkd, "Isolo Branch", None) == "ISO"
  {
    assert "Isolo" + " " + "Branch" == "Isolo Branch";
    NotFillers();
    WordAndFiller(nfkd, "Isolo", "Branch");
    ThreeLetters(BranchCode(nfkd, "Isolo Branch", None), "Isolo", 'I', 'S', 'O');
  }
}

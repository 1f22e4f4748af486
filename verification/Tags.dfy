/**
 Customer tags: `squash` and `normaliseTags` (apps/portal/lib/crm.ts), and the
 ", "-separated line they are shown and edited as. Lower-casing is a parameter:
 nothing here depends on how it maps letters.
 */
module Tags {
  import opened Wrappers
  import opened JsStrings

  const TAG_MAX_LENGTH := 30
  const TAGS_MAX := 12

  /** `replace(/\s+/g, ' ')` */
  function Collapse(s: string): string {
    if s == "" then ""
    else if !IsSpace(s[0]) then [s[0]] + Collapse(s[1..])
    else if |s| > 1 && IsSpace(s[1]) then Collapse(s[1..])
    else " " + Collapse(s[1..])
  }

  function Squash(s: string): string {
    TrimEnd(TrimStart(Collapse(s)))
  }

  /** Squashed, with the empty ones left out. */
  function Clean(pieces: seq<string>): seq<string> {
    if pieces == [] then []
    else (if Squash(pieces[0]) == "" then [] else [Squash(pieces[0])]) + Clean(pieces[1..])
  }

  datatype Input = Absent | Text(text: string) | List(items: seq<string>)

  function Parts(input: Input): seq<string> {
    match input
    case Absent => Clean(Split(""))
    case Text(text) => Clean(Split(text))
    case List(items) => Clean(items)
  }

  // ----- normaliseTags

  datatype TagError = TooLong(tag: string) | TooMany

  ghost predicate Known(lower: string -> string, tags: seq<string>, t: string) {
    exists i :: 0 <= i < |tags| && lower(tags[i]) == lower(t)
  }

  /** The first spelling of every tag, in order. */
  ghost function FirstSpellings(lower: string -> string, parts: seq<string>): seq<string> {
    if parts == [] then []
    else
      var out, t := FirstSpellings(lower, parts[..|parts| - 1]), parts[|parts| - 1];
      if Known(lower, out, t) then out else out + [t]
  }

  function FirstTooLong(parts: seq<string>): Option<string> {
    if parts == [] then None
    else if FirstTooLong(parts[..|parts| - 1]).Some? then FirstTooLong(parts[..|parts| - 1])
    else if |parts[|parts| - 1]| > TAG_MAX_LENGTH then Some(parts[|parts| - 1])
    else None
  }

  ghost function Normalised(lower: string -> string, input: Input): Result<seq<string>, TagError> {
    var parts := Parts(input);
    if FirstTooLong(parts).Some? then Failure(TooLong(FirstTooLong(parts).value))
    else if |FirstSpellings(lower, parts)| > TAGS_MAX then Failure(TooMany)
    else Success(FirstSpellings(lower, parts))
  }

  method NormaliseTags(lower: string -> string, input: Input) returns (r: Result<seq<string>, TagError>)
    ensures r == Normalised(lower, input)
  {
    var parts := Parts(input);
    var out: seq<string> := [];
    for i := 0 to |parts|
      invariant FirstTooLong(parts[..i]) == None
      invariant out == FirstSpellings(lower, parts[..i])
    {
      var t := parts[i];
      OnePart(lower, parts, i);
      if |t| > TAG_MAX_LENGTH {
        TooLongStays(parts, i + 1);
        return Failure(TooLong(t));
      }
      var known := exists j :: 0 <= j < |out| && lower(out[j]) == lower(t);
      assert known == Known(lower, out, t);
      if !known {
        out := out + [t];
      }
    }
    assert parts[..|parts|] == parts;
    if |out| > TAGS_MAX {
      return Failure(TooMany);
    }
    return Success(out);
  }

  lemma {:induction false} OnePart(lower: string -> string, parts: seq<string>, i: nat)
    requires i < |parts| && FirstTooLong(parts[..i]) == None
    ensures FirstTooLong(parts[..i + 1]) == if |parts[i]| > TAG_MAX_LENGTH then Some(parts[i]) else None
    ensures var out := FirstSpellings(lower, parts[..i]);
            FirstSpellings(lower, parts[..i + 1]) == if Known(lower, out, parts[i]) then out else out + [parts[i]]
  {
    assert parts[..i + 1][..i] == parts[..i];
  }

  lemma {:induction false} TooLongStays(parts: seq<string>, n: nat)
    requires n <= |parts| && FirstTooLong(parts[..n]).Some?
    ensures FirstTooLong(parts) == FirstTooLong(parts[..n])
    decreases |parts|
  {
    if n < |parts| {
      assert parts[..|parts| - 1][..n] == parts[..n];
      TooLongStays(parts[..|parts| - 1], n);
    } else {
      assert parts[..n] == parts;
    }
  }

  // ----- the first spelling of every tag, in order

  /** No two tags differ only in case. */
  ghost predicate Distinct(lower: string -> string, tags: seq<string>) {
    forall i, j :: 0 <= i < j < |tags| ==> lower(tags[i]) != lower(tags[j])
  }

  /** `at` lists, in increasing order, the places of the parts kept: each the first of its spelling. */
  ghost predicate KeptAt(lower: string -> string, parts: seq<string>, out: seq<string>, at: seq<nat>) {
    && |at| == |out|
    && (forall k :: 0 <= k < |at| ==> at[k] < |parts| && out[k] == parts[at[k]])
    && (forall k, l :: 0 <= k < l < |at| ==> at[k] < at[l])
    && (forall k, i :: 0 <= k < |at| && 0 <= i < at[k] ==> lower(parts[i]) != lower(out[k]))
  }

  /** Every tag given is represented, and no two tags kept differ only in case. */
  lemma {:induction false} SpellingsCover(lower: string -> string, parts: seq<string>)
    ensures Distinct(lower, FirstSpellings(lower, parts))
    ensures forall i :: 0 <= i < |parts| ==> Known(lower, FirstSpellings(lower, parts), parts[i])
  {
    if parts != [] {
      var init, t := parts[..|parts| - 1], parts[|parts| - 1];
      var out := FirstSpellings(lower, init);
      SpellingsCover(lower, init);
      forall i | 0 <= i < |parts| ensures Known(lower, FirstSpellings(lower, parts), parts[i]) {
        assert i < |init| ==> init[i] == parts[i];
        StillKnown(lower, out, t, parts[i]);
      }
    }
  }

  /** The tags kept are the first of their spelling, in the order given. */
  lemma {:induction false} KeepsFirstSpellings(lower: string -> string, parts: seq<string>) returns (at: seq<nat>)
    ensures KeptAt(lower, parts, FirstSpellings(lower, parts), at)
  {
    at := [];
    if parts != [] {
      var init, t := parts[..|parts| - 1], parts[|parts| - 1];
      var out := FirstSpellings(lower, init);
      var before := KeepsFirstSpellings(lower, init);
      if Known(lower, out, t) {
        KeptLonger(lower, init, t, out, before);
        at := before;
      } else {
        SpellingsCover(lower, init);
        forall i | 0 <= i < |init| ensures lower(init[i]) != lower(t) {
          assert Known(lower, out, init[i]);
        }
        KeptLonger(lower, init, t, out, before);
        KeptOneMore(lower, init, t, out, before);
        at := before + [|init|];
      }
      assert init + [t] == parts;
    }
  }

  lemma {:induction false} KeptLonger(lower: string -> string, parts: seq<string>, t: string, out: seq<string>,
                                      at: seq<nat>)
    requires KeptAt(lower, parts, out, at)
    ensures KeptAt(lower, parts + [t], out, at)
  {
  }

  lemma {:induction false} KeptOneMore(lower: string -> string, parts: seq<string>, t: string, out: seq<string>,
                                       at: seq<nat>)
    requires KeptAt(lower, parts + [t], out, at)
    requires forall k :: 0 <= k < |at| ==> at[k] < |parts|
    requires forall i :: 0 <= i < |parts| ==> lower(parts[i]) != lower(t)
    ensures KeptAt(lower, parts + [t], out + [t], at + [|parts|])
  {
  }

  lemma {:induction false} StillKnown(lower: string -> string, out: seq<string>, t: string, u: string)
    requires Known(lower, out, u) || u == t
    ensures Known(lower, if Known(lower, out, t) then out else out + [t], u)
  {
    if Known(lower, out, u) {
      var i :| 0 <= i < |out| && lower(out[i]) == lower(u);
      assert (out + [t])[i] == out[i];
    } else {
      assert (out + [t])[|out|] == t;
    }
  }

  lemma {:induction false} LastIsNew(lower: string -> string, tags: seq<string>)
    requires tags != [] && Distinct(lower, tags)
    ensures var init := tags[..|tags| - 1]; Distinct(lower, init) && !Known(lower, init, tags[|tags| - 1])
  {
    var init := tags[..|tags| - 1];
    forall i | 0 <= i < |init| ensures lower(init[i]) != lower(tags[|tags| - 1]) {
      assert init[i] == tags[i];
    }
  }

  lemma {:induction false} NewIsKept(lower: string -> string, tags: seq<string>, t: string)
    requires FirstSpellings(lower, tags) == tags && !Known(lower, tags, t)
    ensures FirstSpellings(lower, tags + [t]) == tags + [t]
  {
    assert (tags + [t])[..|tags + [t]| - 1] == tags;
  }

  /** A list without repeats is left alone. */
  lemma {:induction false} DistinctKept(lower: string -> string, tags: seq<string>)
    requires Distinct(lower, tags)
    ensures FirstSpellings(lower, tags) == tags
    decreases |tags|
  {
    if tags != [] {
      var init, t := tags[..|tags| - 1], tags[|tags| - 1];
      LastIsNew(lower, tags);
      DistinctKept(lower, init);
      NewIsKept(lower, init, t);
      assert tags == init + [t];
    }
  }

  // ----- what is accepted

  /** Parts are all short when none is longer than 30 characters. */
  lemma {:induction false} NoneTooLong(parts: seq<string>)
    ensures FirstTooLong(parts) == None <==> forall i :: 0 <= i < |parts| ==> |parts[i]| <= 30
  {
    if parts != [] {
      var init := parts[..|parts| - 1];
      NoneTooLong(init);
      assert forall i :: 0 <= i < |init| ==> init[i] == parts[i];
    }
  }

  /** The refusal names the first part that is too long. */
  lemma {:induction false} NamesTheFirst(parts: seq<string>, i: nat)
    requires i < |parts| && |parts[i]| > 30 && forall j :: 0 <= j < i ==> |parts[j]| <= 30
    ensures FirstTooLong(parts) == Some(parts[i])
  {
    NoneTooLong(parts[..i]);
    assert parts[..i + 1][..i] == parts[..i];
    TooLongStays(parts, i + 1);
  }

  /** `tags` has one spelling of every part, each at the place of its first. */
  ghost predicate IsFirstSpellings(lower: string -> string, parts: seq<string>, tags: seq<string>) {
    Distinct(lower, tags) && (exists at :: KeptAt(lower, parts, tags, at)) &&
    forall i :: 0 <= i < |parts| ==> Known(lower, tags, parts[i])
  }

  lemma {:induction false} SpellingsAreFirst(lower: string -> string, parts: seq<string>)
    ensures IsFirstSpellings(lower, parts, FirstSpellings(lower, parts))
  {
    SpellingsCover(lower, parts);
    var at := KeepsFirstSpellings(lower, parts);
  }

  /** The spellings of the parts, case aside. */
  ghost function Lowered(lower: string -> string, parts: seq<string>): set<string> {
    set i | 0 <= i < |parts| :: lower(parts[i])
  }

  lemma {:induction false} LoweredAnd(lower: string -> string, parts: seq<string>, t: string)
    ensures Lowered(lower, parts + [t]) == Lowered(lower, parts) + {lower(t)}
  {
    var all := parts + [t];
    forall s | s in Lowered(lower, parts) + {lower(t)} ensures s in Lowered(lower, all) {
      if s == lower(t) {
        assert all[|parts|] == t;
      } else {
        var i :| 0 <= i < |parts| && lower(parts[i]) == s;
        assert all[i] == parts[i];
      }
    }
  }

  /** As many tags are kept as there are spellings, case aside. */
  lemma {:induction false} KeptPerSpelling(lower: string -> string, parts: seq<string>)
    ensures Lowered(lower, FirstSpellings(lower, parts)) == Lowered(lower, parts)
    ensures |FirstSpellings(lower, parts)| == |Lowered(lower, parts)|
  {
    if parts != [] {
      var init, t := parts[..|parts| - 1], parts[|parts| - 1];
      var out := FirstSpellings(lower, init);
      KeptPerSpelling(lower, init);
      assert parts == init + [t];
      LoweredAnd(lower, init, t);
      assert Known(lower, out, t) <==> lower(t) in Lowered(lower, out);
      if !Known(lower, out, t) {
        LoweredAnd(lower, out, t);
      }
    }
  }

  /**
   Accepted exactly when no part is longer than 30 characters and there are at most 12 tags that differ in more
   than case.
   */
  lemma {:induction false} AcceptedExactly(lower: string -> string, input: Input)
    ensures Normalised(lower, input).Success? <==>
              && (forall i :: 0 <= i < |Parts(input)| ==> |Parts(input)[i]| <= 30)
              && |Lowered(lower, Parts(input))| <= 12
    ensures Normalised(lower, input).Success? ==>
              IsFirstSpellings(lower, Parts(input), Normalised(lower, input).value)
    ensures Normalised(lower, Absent) == Success([])
  {
    NoneTooLong(Parts(input));
    KeptPerSpelling(lower, Parts(input));
    SpellingsAreFirst(lower, Parts(input));
    NothingToParse();
    assert Parts(Absent) == [];
  }

  lemma {:induction false} NothingToParse()
    ensures Clean(Split("")) == []
  {
    assert Squash("") == "";
  }

  // ----- squashing

  /** No white space at either end, single plain spaces inside. */
  ghost predicate Squashed(s: string) {
    && Spaced(s)
    && (s != "" ==> !IsSpace(s[0]) && !IsSpace(s[|s| - 1]))
  }

  ghost predicate Spaced(s: string) {
    forall i :: 0 <= i < |s| && IsSpace(s[i]) ==> s[i] == ' ' && (i + 1 < |s| ==> !IsSpace(s[i + 1]))
  }

  lemma {:induction false} CollapseSpaces(s: string)
    ensures Spaced(Collapse(s))
    ensures s != "" ==> Collapse(s) != "" && (IsSpace(Collapse(s)[0]) <==> IsSpace(s[0]))
  {
    if s != "" {
      CollapseSpaces(s[1..]);
      var rest := Collapse(s[1..]);
      if |s| == 1 || !IsSpace(s[0]) || !IsSpace(s[1]) {
        var c := if IsSpace(s[0]) then ' ' else s[0];
        assert Collapse(s) == [c] + rest;
        forall i | 0 <= i < |rest| + 1 && IsSpace(([c] + rest)[i])
          ensures ([c] + rest)[i] == ' ' && (i < |rest| ==> !IsSpace(([c] + rest)[i + 1]))
        {
          if i > 0 {
            assert ([c] + rest)[i] == rest[i - 1];
          }
        }
      }
    }
  }

  lemma {:induction false} TrimStartSpaced(s: string)
    requires Spaced(s)
    ensures Spaced(TrimStart(s)) && (TrimStart(s) != "" ==> !IsSpace(TrimStart(s)[0]))
  {
    if s != "" && IsSpace(s[0]) {
      assert forall i :: 0 <= i < |s| - 1 ==> s[1..][i] == s[i + 1];
      TrimStartSpaced(s[1..]);
    }
  }

  lemma {:induction false} TrimEndSpaced(s: string)
    requires Spaced(s) && (s != "" ==> !IsSpace(s[0]))
    ensures Squashed(TrimEnd(s))
  {
    if s != "" && IsSpace(s[|s| - 1]) {
      TrimEndSpaced(s[..|s| - 1]);
    }
  }

  lemma {:induction false} SquashSquashes(s: string)
    ensures Squashed(Squash(s))
  {
    CollapseSpaces(s);
    TrimStartSpaced(Collapse(s));
    TrimEndSpaced(TrimStart(Collapse(s)));
  }

  lemma {:induction false} CollapseKeeps(s: string)
    requires Spaced(s)
    ensures Collapse(s) == s
  {
    if s != "" {
      assert forall i :: 0 <= i < |s| - 1 ==> s[1..][i] == s[i + 1];
      CollapseKeeps(s[1..]);
      if IsSpace(s[0]) {
        assert s[0] == ' ' && (0 + 1 < |s| ==> !IsSpace(s[0 + 1]));
      }
      assert s == [s[0]] + s[1..];
    }
  }

  /** A squashed tag, with or without one space before it, squashes to itself. */
  lemma {:induction false} SquashKeeps(lead: string, s: string)
    requires Squashed(s) && s != "" && (lead == "" || lead == " ")
    ensures Squash(lead + s) == s
  {
    var t := lead + s;
    forall i | 0 <= i < |t| && IsSpace(t[i]) ensures t[i] == ' ' && (i + 1 < |t| ==> !IsSpace(t[i + 1])) {
      if i >= |lead| {
        assert t[i] == s[i - |lead|];
      }
    }
    CollapseKeeps(t);
    assert TrimStart(s) == s && TrimEnd(s) == s;
    if lead == "" {
      assert t == s;
    } else {
      assert t[1..] == s;
    }
  }

  // ----- squashing keeps the words

  lemma {:induction false} LongerWord(c: char, s: string)
    requires !IsSpace(c)
    ensures WordLength([c] + s) == 1 + WordLength(s)
    ensures ([c] + s)[..1 + WordLength(s)] == [c] + s[..WordLength(s)]
    ensures ([c] + s)[1 + WordLength(s)..] == s[WordLength(s)..]
  {
    assert ([c] + s)[1..] == s;
  }

  lemma {:induction false} CollapseWord(s: string)
    requires s != "" && !IsSpace(s[0])
    ensures var n, c := WordLength(s), Collapse(s);
            && n <= |c| && WordLength(c) == n && c[..n] == s[..n] && c[n..] == Collapse(s[n..])
  {
    var c, rest := s[0], s[1..];
    LongerWord(c, rest);
    LongerWord(c, Collapse(rest));
    assert s == [c] + rest;
    CollapseSpaces(rest);
    if rest != "" && !IsSpace(rest[0]) {
      CollapseWord(rest);
    }
  }

  lemma {:induction false} CollapseWords(s: string)
    ensures Words(Collapse(s)) == Words(s)
    decreases |s|
  {
    if s != "" {
      if IsSpace(s[0]) {
        CollapseWords(s[1..]);
        assert (" " + Collapse(s[1..]))[1..] == Collapse(s[1..]);
      } else {
        CollapseWord(s);
        CollapseWords(s[WordLength(s)..]);
      }
    }
  }

  /** A squashed text has the words it had, with nothing but single spaces between them. */
  lemma {:induction false} SquashKeepsWords(s: string)
    ensures Words(Squash(s)) == Words(s) && Squashed(Squash(s))
  {
    CollapseWords(s);
    TrimStartWords(Collapse(s));
    TrimEndWords(TrimStart(Collapse(s)));
    SquashSquashes(s);
  }

  // ----- commas

  lemma {:induction false} CollapseNoComma(s: string)
    ensures HasComma(Collapse(s)) ==> HasComma(s)
  {
    if s != "" {
      CollapseNoComma(s[1..]);
      assert s == [s[0]] + s[1..];
    }
  }

  lemma {:induction false} TrimStartNoComma(s: string)
    ensures HasComma(TrimStart(s)) ==> HasComma(s)
  {
    if s != "" && IsSpace(s[0]) {
      TrimStartNoComma(s[1..]);
    }
  }

  lemma {:induction false} TrimEndNoComma(s: string)
    ensures HasComma(TrimEnd(s)) ==> HasComma(s)
  {
    if s != "" && IsSpace(s[|s| - 1]) {
      TrimEndNoComma(s[..|s| - 1]);
    }
  }

  lemma {:induction false} SplitNoComma(s: string)
    ensures NoCommas(Split(s))
  {
    if s != "" {
      SplitNoComma(s[1..]);
    }
  }

  lemma {:induction false} CleanProperties(pieces: seq<string>)
    ensures AllSquashed(Clean(pieces))
    ensures NoCommas(pieces) ==> NoCommas(Clean(pieces))
  {
    if pieces != [] {
      CleanProperties(pieces[1..]);
      SquashSquashes(pieces[0]);
      CollapseNoComma(pieces[0]);
      TrimStartNoComma(Collapse(pieces[0]));
      TrimEndNoComma(TrimStart(Collapse(pieces[0])));
    }
  }

  // ----- the parts

  lemma {:induction false} EmptyHasNoWords(s: string)
    ensures Squash(s) == "" <==> Words(s) == []
  {
    SquashKeepsWords(s);
    if Squash(s) != "" {
      assert !IsSpace(Squash(s)[0]);
    }
  }

  lemma {:induction false} CleanConcat(a: seq<string>, b: seq<string>)
    ensures Clean(a + b) == Clean(a) + Clean(b)
  {
    if a == [] {
      assert a + b == b;
    } else {
      assert (a + b)[1..] == a[1..] + b;
      CleanConcat(a[1..], b);
    }
  }

  /** Each piece with a word in it is a part, squashed, in its place; a piece of nothing but white space is none. */
  lemma {:induction false} EachPiece(a: seq<string>, p: string, b: seq<string>)
    ensures Clean([]) == []
    ensures Clean(a + [p] + b) == Clean(a) + (if Words(p) == [] then [] else [Squash(p)]) + Clean(b)
  {
    CleanConcat(a + [p], b);
    CleanConcat(a, [p]);
    EmptyHasNoWords(p);
    assert [p][1..] == [];
  }

  // ----- printing and parsing

  /** `tags.join(', ')` */
  function Join(tags: seq<string>): string {
    if tags == [] then ""
    else if |tags| == 1 then tags[0]
    else tags[0] + "," + (" " + Join(tags[1..]))
  }

  lemma {:induction false} CleanFirst(piece: string, pieces: seq<string>)
    requires Squash(piece) != ""
    ensures Clean([piece] + pieces) == [Squash(piece)] + Clean(pieces)
  {
    assert ([piece] + pieces)[1..] == pieces;
  }

  ghost predicate AllSquashed(tags: seq<string>) {
    forall i :: 0 <= i < |tags| ==> Squashed(tags[i]) && tags[i] != ""
  }

  ghost predicate NoCommas(tags: seq<string>) {
    forall i :: 0 <= i < |tags| ==> !HasComma(tags[i])
  }

  ghost predicate Good(tag: string) {
    Squashed(tag) && tag != "" && !HasComma(tag)
  }

  ghost predicate Printable(tags: seq<string>) {
    forall i :: 0 <= i < |tags| ==> Good(tags[i])
  }

  lemma {:induction false} ParseFirst(lead: string, tag: string, rest: string)
    requires Good(tag) && (lead == "" || lead == " ")
    ensures Clean(Split(lead + tag)) == [tag]
    ensures Clean(Split(lead + tag + "," + rest)) == [tag] + Clean(Split(rest))
  {
    SquashKeeps(lead, tag);
    SplitAtComma(lead + tag, rest);
    CleanFirst(lead + tag, Split(rest));
    CleanFirst(lead + tag, []);
  }

  lemma {:induction false} JoinStep(lead: string, tags: seq<string>)
    requires |tags| > 1
    ensures lead + Join(tags) == lead + tags[0] + "," + (" " + Join(tags[1..]))
  {
  }

  lemma {:induction false} CleanSplitOne(lead: string, tags: seq<string>)
    requires |tags| == 1 && Good(tags[0]) && (lead == "" || lead == " ")
    ensures Clean(Split(lead + Join(tags))) == tags
  {
    assert Join(tags) == tags[0];
    ParseFirst(lead, tags[0], "");
    assert tags == [tags[0]];
  }

  lemma {:induction false} CleanSplitMore(lead: string, tags: seq<string>)
    requires |tags| > 1 && Good(tags[0]) && (lead == "" || lead == " ")
    requires Clean(Split(" " + Join(tags[1..]))) == tags[1..]
    ensures Clean(Split(lead + Join(tags))) == tags
  {
    JoinStep(lead, tags);
    ParseFirst(lead, tags[0], " " + Join(tags[1..]));
    assert tags == [tags[0]] + tags[1..];
  }

  /** A comma-free list of squashed tags, printed with ", " and parsed, is the list again. */
  lemma {:induction false} CleanSplitJoin(lead: string, tags: seq<string>)
    requires Printable(tags) && (lead == "" || lead == " ")
    requires tags == [] ==> lead == ""
    ensures Clean(Split(lead + Join(tags))) == tags
    decreases |tags|
  {
    if tags == [] {
      NothingToParse();
    } else if |tags| == 1 {
      CleanSplitOne(lead, tags);
    } else {
      var rest := tags[1..];
      assert Printable(rest) by {
        assert forall i :: 0 <= i < |rest| ==> rest[i] == tags[i + 1];
      }
      CleanSplitJoin(" ", rest);
      CleanSplitMore(lead, tags);
    }
  }

  lemma {:induction false} PartsAreClean(input: Input)
    ensures AllSquashed(Parts(input))
    ensures !input.List? ==> NoCommas(Parts(input))
  {
    match input {
      case Absent =>
        SplitNoComma("");
        CleanProperties(Split(""));
      case Text(text) =>
        SplitNoComma(text);
        CleanProperties(Split(text));
      case List(items) =>
        CleanProperties(items);
    }
  }

  /** What is kept is clean, short and free of commas if what was given is. */
  lemma {:induction false} KeptAreClean(lower: string -> string, parts: seq<string>)
    requires AllSquashed(parts) && FirstTooLong(parts) == None
    ensures AllSquashed(FirstSpellings(lower, parts)) && FirstTooLong(FirstSpellings(lower, parts)) == None
    ensures NoCommas(parts) ==> NoCommas(FirstSpellings(lower, parts))
  {
    var out := FirstSpellings(lower, parts);
    var at := KeepsFirstSpellings(lower, parts);
    NoneTooLong(parts);
    forall i | 0 <= i < |out| ensures out[i] in parts {
      assert out[i] == parts[at[i]];
    }
    NoneTooLong(out);
  }

  /** Accepted tags are squashed, non-empty, short, few and distinct; those of a text have no comma. */
  lemma {:induction false} AcceptedTags(lower: string -> string, input: Input)
    requires Normalised(lower, input).Success?
    ensures var out := Normalised(lower, input).value;
            && |out| <= TAGS_MAX && Distinct(lower, out) && FirstTooLong(out) == None
            && AllSquashed(out) && (!input.List? ==> NoCommas(out))
  {
    var parts := Parts(input);
    PartsAreClean(input);
    KeptAreClean(lower, parts);
    SpellingsCover(lower, parts);
  }

  lemma {:induction false} CleanTagsPrint(tags: seq<string>)
    requires AllSquashed(tags) && NoCommas(tags)
    ensures Printable(tags)
  {
  }

  /** Normalising a result again, as a list, changes nothing. */
  lemma {:induction false} FixedPoint(lower: string -> string, input: Input)
    requires Normalised(lower, input).Success?
    ensures Normalised(lower, List(Normalised(lower, input).value)) == Normalised(lower, input)
  {
    var out := Normalised(lower, input).value;
    AcceptedTags(lower, input);
    CleanKeeps(out);
    DistinctKept(lower, out);
  }

  lemma {:induction false} CleanKeeps(tags: seq<string>)
    requires AllSquashed(tags)
    ensures Clean(tags) == tags
  {
    if tags != [] {
      SquashKeeps("", tags[0]);
      assert "" + tags[0] == tags[0];
      CleanKeeps(tags[1..]);
    }
  }

  lemma {:induction false} ParsePrinted(lower: string -> string, tags: seq<string>)
    requires Printable(tags) && Distinct(lower, tags) && FirstTooLong(tags) == None && |tags| <= TAGS_MAX
    ensures Normalised(lower, Text(Join(tags))) == Success(tags)
  {
    CleanSplitJoin("", tags);
    assert "" + Join(tags) == Join(tags);
    DistinctKept(lower, tags);
  }

  /** Printing a result and parsing it gives it back exactly when no tag holds a comma. */
  lemma {:induction false} PrintThenParse(lower: string -> string, input: Input)
    requires Normalised(lower, input).Success?
    ensures var out := Normalised(lower, input).value;
            Normalised(lower, Text(Join(out))) == Success(out) <==> NoCommas(out)
  {
    var out := Normalised(lower, input).value;
    AcceptedTags(lower, input);
    if NoCommas(out) {
      CleanTagsPrint(out);
      ParsePrinted(lower, out);
    } else if Normalised(lower, Text(Join(out))) == Success(out) {
      AcceptedTags(lower, Text(Join(out)));
    }
  }

  /** So a result that came from text always survives. */
  lemma {:induction false} TextRoundTrip(lower: string -> string, text: string)
    requires Normalised(lower, Text(text)).Success?
    ensures Normalised(lower, Text(Join(Normalised(lower, Text(text)).value))) == Normalised(lower, Text(text))
  {
    AcceptedTags(lower, Text(text));
    PrintThenParse(lower, Text(text));
  }

  /** From a list a comma can get in: such a tag is kept, but not read back. */
  lemma {:induction false} CommaTagLost(lower: string -> string, tag: string)
    requires Squashed(tag) && HasComma(tag) && |tag| <= TAG_MAX_LENGTH
    ensures Normalised(lower, List([tag])) == Success([tag])
    ensures Normalised(lower, Text(Join([tag]))) != Success([tag])
  {
    CleanKeeps([tag]);
    NoneTooLong([tag]);
    DistinctKept(lower, [tag]);
    PrintThenParse(lower, List([tag]));
    assert HasComma([tag][0]);
  }

  lemma {:induction false} CommaExample(lower: string -> string)
    ensures exists input :: Normalised(lower, input) == Success(["a,b"])
    ensures Normalised(lower, Text(Join(["a,b"]))) != Success(["a,b"])
  {
    CommaTagLost(lower, "a,b");
  }
}

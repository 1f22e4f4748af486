/** The JavaScript string operations the portal's rules are written with. Strings are sequences of characters. */
module JsStrings {
  /** What `\s` and `trim` take for white space. */
  predicate IsSpace(c: char) {
    || '\U{0009}' <= c <= '\U{000D}'
    || c in {' ', '\U{00A0}', '\U{1680}', '\U{2028}', '\U{2029}', '\U{202F}', '\U{205F}', '\U{3000}', '\U{FEFF}'}
    || '\U{2000}' <= c <= '\U{200A}'
  }

  function TrimStart(s: string): string {
    if s != "" && IsSpace(s[0]) then TrimStart(s[1..]) else s
  }

  function TrimEnd(s: string): string {
    if s != "" && IsSpace(s[|s| - 1]) then TrimEnd(s[..|s| - 1]) else s
  }

  /** `split(',')` */
  function Split(s: string): (pieces: seq<string>)
    ensures |pieces| >= 1
  {
    if s == "" then [""]
    else if s[0] == ',' then [""] + Split(s[1..])
    else
      var rest := Split(s[1..]);
      [[s[0]] + rest[0]] + rest[1..]
  }

  predicate HasComma(s: string) {
    ',' in s
  }

  lemma {:induction false} SplitAtComma(a: string, rest: string)
    requires !HasComma(a)
    ensures Split(a + "," + rest) == [a] + Split(rest)
    ensures Split(a) == [a]
  {
    if a == "" {
      assert a + "," + rest == "," + rest;
      assert ("," + rest)[1..] == rest;
    } else {
      assert (a + "," + rest)[1..] == a[1..] + "," + rest;
      SplitAtComma(a[1..], rest);
      assert a == [a[0]] + a[1..];
    }
  }

  /** `join(',')` */
  function Commas(pieces: seq<string>): string {
    if pieces == [] then "" else if |pieces| == 1 then pieces[0] else pieces[0] + "," + Commas(pieces[1..])
  }

  /** Splitting undoes joining: the pieces have no comma, and joined they are the text. */
  lemma {:induction false} SplitJoins(s: string)
    ensures Commas(Split(s)) == s && forall i :: 0 <= i < |Split(s)| ==> !HasComma(Split(s)[i])
  {
    if s != "" {
      var rest := Split(s[1..]);
      SplitJoins(s[1..]);
      assert s == [s[0]] + s[1..];
      if s[0] == ',' {
        assert ([""] + rest)[1..] == rest;
      } else {
        var first := [[s[0]] + rest[0]];
        assert (first + rest[1..])[1..] == rest[1..];
        if |rest| > 1 {
          assert Commas(rest) == rest[0] + "," + Commas(rest[1..]);
        } else {
          assert rest == [rest[0]] && first + rest[1..] == first;
        }
      }
    }
  }

  predicate IsBlank(s: string) {
    forall i :: 0 <= i < |s| ==> IsSpace(s[i])
  }

  /** Trimming takes all the white space around a text and nothing else. */
  lemma {:induction false} TrimsAround(left: string, s: string, right: string)
    requires IsBlank(left) && IsBlank(right)
    requires s != "" ==> !IsSpace(s[0]) && !IsSpace(s[|s| - 1])
    ensures TrimEnd(TrimStart(left + s + right)) == s
  {
    if s == "" {
      TrimStartBlank(left + s + right);
    } else {
      assert left + s + right == left + (s + right);
      TrimStartAt(left, s + right);
      TrimEndAt(s, right);
    }
  }

  lemma {:induction false} TrimStartBlank(s: string)
    requires IsBlank(s)
    ensures TrimStart(s) == ""
  {
    if s != "" {
      TrimStartBlank(s[1..]);
    }
  }

  lemma {:induction false} TrimStartAt(left: string, s: string)
    requires IsBlank(left) && s != "" && !IsSpace(s[0])
    ensures TrimStart(left + s) == s
  {
    if left == "" {
      assert left + s == s;
    } else {
      assert (left + s)[1..] == left[1..] + s;
      TrimStartAt(left[1..], s);
    }
  }

  lemma {:induction false} TrimEndAt(s: string, right: string)
    requires IsBlank(right) && s != "" && !IsSpace(s[|s| - 1])
    ensures TrimEnd(s + right) == s
  {
    if right == "" {
      assert s + right == s;
    } else {
      assert (s + right)[..|s + right| - 1] == s + right[..|right| - 1];
      TrimEndAt(s, right[..|right| - 1]);
    }
  }

  /** `slice(0, n)` */
  function Take(s: string, n: nat): string {
    if |s| <= n then s else s[..n]
  }

  /** The length of the run of word characters a string starts with. */
  function WordLength(s: string): (n: nat)
    ensures n <= |s| && (forall i :: 0 <= i < n ==> !IsSpace(s[i])) && (n < |s| ==> IsSpace(s[n]))
  {
    if s == "" || IsSpace(s[0]) then 0 else 1 + WordLength(s[1..])
  }

  /** `split(/\s+/).filter(Boolean)` */
  function Words(s: string): seq<string>
    decreases |s|
  {
    if s == "" then []
    else if IsSpace(s[0]) then Words(s[1..])
    else
      var n := WordLength(s);
      [s[..n]] + Words(s[n..])
  }

  /** Words are non-empty and made of the text's other characters. */
  lemma {:induction false} WordChars(s: string)
    ensures forall w :: w in Words(s) ==> w != "" && forall c :: c in w ==> c in s && !IsSpace(c)
    decreases |s|
  {
    if s != "" {
      if IsSpace(s[0]) {
        WordChars(s[1..]);
      } else {
        WordChars(s[WordLength(s)..]);
      }
    }
  }

  /** A text that does not go on with a word character. */
  predicate IsWordEnd(s: string) {
    s == "" || IsSpace(s[0])
  }

  lemma {:induction false} WordLengthIs(w: string, rest: string)
    requires (forall i :: 0 <= i < |w| ==> !IsSpace(w[i])) && IsWordEnd(rest)
    ensures WordLength(w + rest) == |w|
  {
    if w == "" {
      assert w + rest == rest;
    } else {
      assert (w + rest)[1..] == w[1..] + rest;
      WordLengthIs(w[1..], rest);
    }
  }

  lemma {:induction false} FirstWord(w: string, rest: string)
    requires w != "" && (forall i :: 0 <= i < |w| ==> !IsSpace(w[i])) && IsWordEnd(rest)
    ensures Words(w + rest) == [w] + Words(rest)
  {
    WordLengthIs(w, rest);
    assert (w + rest)[..|w|] == w && (w + rest)[|w|..] == rest;
  }

  lemma {:induction false} SpaceFirst(space: char, s: string)
    requires IsSpace(space)
    ensures Words([space] + s) == Words(s)
  {
    assert ([space] + s)[1..] == s;
  }

  lemma {:induction false} WordBefore(w: string, rest: string, more: string, last: seq<string>)
    requires w != "" && (forall i :: 0 <= i < |w| ==> !IsSpace(w[i])) && IsWordEnd(rest) && IsWordEnd(more)
    requires Words(more) == Words(rest) + last
    ensures Words(w + more) == Words(w + rest) + last
  {
    FirstWord(w, rest);
    FirstWord(w, more);
  }

  lemma {:induction false} Regrouped(s: string, n: nat, t: string)
    requires n <= |s|
    ensures s == s[..n] + s[n..] && s + t == s[..n] + (s[n..] + t)
  {
  }

  lemma {:induction false} SpaceBefore(space: char, rest: string, t: string)
    requires IsSpace(space) && Words(rest + t) == Words(rest) + Words(t)
    ensures Words([space] + rest + t) == Words([space] + rest) + Words(t)
  {
    SpaceFirst(space, rest);
    SpaceFirst(space, rest + t);
    assert [space] + (rest + t) == [space] + rest + t;
  }

  /** White space keeps words apart, and nothing else does. */
  lemma {:induction false} WordsApart(s: string, t: string)
    requires IsWordEnd(t)
    ensures Words(s + t) == Words(s) + Words(t)
    decreases |s|
  {
    if s == "" {
      assert s + t == t;
    } else if IsSpace(s[0]) {
      WordsApart(s[1..], t);
      assert s == [s[0]] + s[1..];
      SpaceBefore(s[0], s[1..], t);
    } else {
      var n := WordLength(s);
      WordsApart(s[n..], t);
      Regrouped(s, n, t);
      WordBefore(s[..n], s[n..], s[n..] + t, Words(t));
    }
  }

  lemma {:induction false} OneWord(w: string)
    requires forall i :: 0 <= i < |w| ==> !IsSpace(w[i])
    ensures Words(w) == if w == "" then [] else [w]
  {
    if w != "" {
      FirstWord(w, "");
      assert w + "" == w;
    }
  }

  lemma {:induction false} TrimStartWords(s: string)
    ensures Words(TrimStart(s)) == Words(s)
  {
    if s != "" && IsSpace(s[0]) {
      TrimStartWords(s[1..]);
    }
  }

  lemma {:induction false} TrimEndWords(s: string)
    ensures Words(TrimEnd(s)) == Words(s)
  {
    if s != "" && IsSpace(s[|s| - 1]) {
      var init, space := s[..|s| - 1], s[|s| - 1];
      assert s == init + [space];
      WordsApart(init, [space]);
      SpaceFirst(space, "");
      assert [space] + "" == [space];
      TrimEndWords(init);
    }
  }

  /** Trimming a text changes none of its words. */
  lemma {:induction false} TrimKeepsWords(s: string)
    ensures Words(TrimEnd(TrimStart(s))) == Words(s)
  {
    TrimStartWords(s);
    TrimEndWords(TrimStart(s));
  }

  /** The white space of ECMAScript by code point: tab to carriage return, spaces, line ends. */
  lemma {:induction false} WhiteSpaceListed(c: char)
    ensures IsSpace(c) <==>
              || 9 <= c as int <= 13 || 0x2000 <= c as int <= 0x200A
              || c as int in {32, 0xA0, 0x1680, 0x2028, 0x2029, 0x202F, 0x205F, 0x3000, 0xFEFF}
  {
  }
}

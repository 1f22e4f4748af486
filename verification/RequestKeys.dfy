/**
 Which keys a request counts under, read off its headers
 (apps/portal/middleware.ts): the client's address is the first entry of
 x-forwarded-for, else x-real-ip, else unknown; a person is the start of the
 session token.
 */
module RequestKeys {
  import opened Wrappers
  import opened JsStrings
  import opened RateLimiter

  /** An entry as a proxy writes it: not empty, no comma, no white space around it. */
  predicate IsClient(client: string) {
    client != "" && !HasComma(client) && !IsSpace(client[0]) && !IsSpace(client[|client| - 1])
  }

  /** The header's first entry is this one, padded with white space or not, whatever follows. */
  ghost predicate FirstEntry(header: Option<string>, entry: string) {
    exists left, right, rest :: PaddedFirst(header, left, entry, right, rest)
  }

  predicate PaddedFirst(header: Option<string>, left: string, entry: string, right: string, rest: string) {
    && IsBlank(left) && IsBlank(right)
    && (header == Some(left + entry + right) || header == Some(left + entry + right + "," + rest))
  }

  lemma {:induction false} FirstPiece(header: Option<string>, left: string, entry: string, right: string, rest: string)
    requires PaddedFirst(header, left, entry, right, rest) && !HasComma(entry)
    ensures Split(header.value)[0] == left + entry + right
  {
    SplitAtComma(left + entry + right, rest);
  }

  lemma {:induction false} TrimmedFirst(header: Option<string>, entry: string)
    requires FirstEntry(header, entry) && (entry == "" || IsClient(entry))
    ensures header.Some? && TrimEnd(TrimStart(Split(header.value)[0])) == entry
  {
    var left, right, rest :| PaddedFirst(header, left, entry, right, rest);
    FirstPiece(header, left, entry, right, rest);
    TrimsAround(left, entry, right);
  }

  /** The first 32 characters of a session token, or all of a shorter one. */
  function First32(token: string): string {
    if |token| <= 32 then token else token[..32]
  }

  /** A post from this address counts under exactly these keys. */
  ghost predicate CountsAs(r: Request, address: string) {
    forall key :: Counts(r, key) <==>
      && r.verb == "POST"
      && if r.token == None || r.token.value == "" then key == "anon:" + address
         else key == "auth:" + address || key == "s:" + First32(r.token.value)
  }

  /** Behind a proxy it is the first entry of x-forwarded-for that counts, whatever the later ones and x-real-ip say. */
  lemma {:induction false} ForwardedClient(r: Request, client: string)
    requires IsClient(client) && FirstEntry(r.forwardedFor, client)
    ensures CountsAs(r, client)
  {
    TrimmedFirst(r.forwardedFor, client);
  }

  /** Without that header, or with a blank first entry, it is x-real-ip, and without that everyone is "unknown". */
  lemma {:induction false} NoForwardedClient(r: Request)
    requires r.forwardedFor == None || FirstEntry(r.forwardedFor, "")
    ensures CountsAs(r, if r.realIp.Some? && r.realIp.value != "" then r.realIp.value else "unknown")
  {
    if r.forwardedFor.Some? {
      TrimmedFirst(r.forwardedFor, "");
    }
  }

  /** Two signed-in posts count under one person's key exactly when their tokens agree on the first 32 characters. */
  lemma {:induction false} SamePerson(q: Request, r: Request)
    requires SignedIn(q) && SignedIn(r)
    ensures PersonKey(q) == PersonKey(r) <==> First32(q.token.value) == First32(r.token.value)
  {
    assert PersonKey(q)[2..] == First32(q.token.value) && PersonKey(r)[2..] == First32(r.token.value);
  }

  /** A key counts up to 1,500 posts if it is a shared address's, else up to 120. */
  lemma {:induction false} LimitsInNumbers(r: Request, key: string)
    requires Counts(r, key)
    ensures Limit(key) == if r.token.Some? && r.token.value != "" && "auth:" <= key then 1500 else 120
  {
    KeyFamilies(r, key);
    if SignedIn(r) && key == PersonKey(r) {
      assert key[0] == 's';
    }
  }
}

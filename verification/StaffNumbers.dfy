/**
 Employee numbers over time: issuing (apps/portal/lib/staff-onboarding.ts, with
 the retry of apps/portal/lib/actions/users-admin.ts) and deleting unused
 accounts for good (apps/portal/lib/staff-delete.ts). The next number is read
 off the accounts there are; the unique column refuses an ID that is present,
 and the administrator then reads again.
 */
module StaffNumbers {
  import opened Wrappers
  import opened Decimals
  import opened EmployeeIds

  // ----- an ID belongs to one prefix

  lemma {:induction false} DigitsHaveNoHyphen(s: string)
    requires AllDigits(s)
    ensures '-' !in s
  {
  }

  /** A text splits in one way at its last hyphen. */
  lemma {:induction false} LastHyphen(a: string, x: string, b: string, y: string)
    requires '-' !in x && '-' !in y && a + "-" + x == b + "-" + y
    ensures a == b
  {
    var s := a + "-" + x;
    assert s[|a|] == '-' && s[|b|] == '-';
    assert forall i :: |a| < i < |s| ==> s[i] == x[i - |a| - 1];
    assert forall i :: |b| < i < |s| ==> s[i] == y[i - |b| - 1];
    assert s[..|a|] == a && s[..|b|] == b;
  }

  /** An ID is recognised under its own prefix only, whatever the prefixes look like. */
  lemma {:induction false} OnlyItsPrefix(prefix: string, other: string, n: nat)
    ensures SequenceOf(other, FormatEmployeeId(prefix, n)).Some? ==> other == prefix
  {
    var id := FormatEmployeeId(prefix, n);
    if SequenceOf(other, id).Some? {
      var rest := id[|other| + 1..];
      DigitsHaveNoHyphen(rest);
      DigitsHaveNoHyphen(PadStart4(n));
      assert id == other + "-" + rest;
      LastHyphen(prefix, PadStart4(n), other, rest);
    }
  }

  // ----- issuing and deleting

  /** An ID an administrator has been offered and not yet used. */
  datatype Offer = Offer(prefix: string, n: nat)

  /** The IDs in the accounts table, every ID ever put there in order, and the offers under way. */
  datatype Registry = Registry(ids: seq<string>, issued: seq<string>, offers: map<nat, Offer>)

  datatype Step = Read(admin: nat, prefix: string) | Insert(admin: nat) | Delete(id: string)

  function Without(ids: seq<string>, id: string): seq<string> {
    if ids == [] then []
    else if ids[|ids| - 1] == id then Without(ids[..|ids| - 1], id)
    else Without(ids[..|ids| - 1], id) + [ids[|ids| - 1]]
  }

  function Inserted(s: Registry, id: string): Registry {
    if id in s.ids then s else s.(ids := s.ids + [id], issued := s.issued + [id])
  }

  function Apply(s: Registry, step: Step): Registry {
    match step
    case Read(admin, prefix) => s.(offers := s.offers[admin := Offer(prefix, Largest(prefix, s.ids) + 1)])
    case Insert(admin) =>
      if admin !in s.offers then s
      else
        var o := s.offers[admin];
        Inserted(s, FormatEmployeeId(o.prefix, o.n)).(offers := s.offers - {admin})
    case Delete(id) => s.(ids := Without(s.ids, id))
  }

  function After(steps: seq<Step>): Registry {
    if steps == [] then Registry([], [], map[]) else Apply(After(steps[..|steps| - 1]), steps[|steps| - 1])
  }

  // ----- what every run keeps

  lemma {:induction false} WithoutKeeps(ids: seq<string>, id: string)
    ensures forall x :: x in Without(ids, id) <==> x in ids && x != id
  {
    if ids != [] {
      WithoutKeeps(ids[..|ids| - 1], id);
      assert ids == ids[..|ids| - 1] + [ids[|ids| - 1]];
    }
  }

  lemma {:induction false} LargestOfPart(prefix: string, part: seq<string>, ids: seq<string>)
    requires forall id :: id in part ==> id in ids
    ensures Largest(prefix, part) <= Largest(prefix, ids)
  {
    if part != [] {
      assert part[0] in ids;
      LargestOfPart(prefix, part[1..], ids);
    }
  }

  ghost predicate AllIssued(prefix: string, issued: seq<string>, upTo: int) {
    forall n: nat :: 1 <= n <= upTo ==> FormatEmployeeId(prefix, n) in issued
  }

  /**
   Present IDs were issued, no number up to the largest ever issued was skipped, and no offer goes more than one
   beyond it.
   */
  ghost predicate Kept(s: Registry, prefix: string) {
    && (forall id :: id in s.ids ==> id in s.issued)
    && AllIssued(prefix, s.issued, Largest(prefix, s.issued))
    && forall a :: a in s.offers && s.offers[a].prefix == prefix ==> 1 <= s.offers[a].n <= Largest(prefix, s.issued) + 1
  }

  lemma {:induction false} LargestWith(prefix: string, issued: seq<string>, n: nat)
    requires 1 <= n <= Largest(prefix, issued) + 1
    ensures var max := Largest(prefix, issued);
            Largest(prefix, issued + [FormatEmployeeId(prefix, n)]) == if max < n <= 999_999_999 then n else max
  {
    LargestAnd(prefix, issued, FormatEmployeeId(prefix, n));
    ReadsBack(prefix, n);
  }

  lemma {:induction false} AllIssuedWith(prefix: string, issued: seq<string>, upTo: int, id: string)
    requires AllIssued(prefix, issued, upTo)
    ensures AllIssued(prefix, issued + [id], upTo)
    ensures upTo >= 0 && id == FormatEmployeeId(prefix, upTo + 1) ==> AllIssued(prefix, issued + [id], upTo + 1)
  {
  }

  lemma {:induction false} InsertOwn(s: Registry, prefix: string, n: nat)
    requires Kept(s, prefix) && 1 <= n <= Largest(prefix, s.issued) + 1
    ensures Kept(Inserted(s, FormatEmployeeId(prefix, n)), prefix)
  {
    var id := FormatEmployeeId(prefix, n);
    LargestWith(prefix, s.issued, n);
    AllIssuedWith(prefix, s.issued, Largest(prefix, s.issued), id);
  }

  lemma {:induction false} InsertOther(s: Registry, prefix: string, own: string, n: nat)
    requires Kept(s, prefix) && own != prefix
    ensures Kept(Inserted(s, FormatEmployeeId(own, n)), prefix)
  {
    var id := FormatEmployeeId(own, n);
    LargestAnd(prefix, s.issued, id);
    OnlyItsPrefix(own, prefix, n);
    assert Largest(prefix, s.issued + [id]) == Largest(prefix, s.issued);
  }

  lemma {:induction false} StepKeeps(s: Registry, step: Step, prefix: string)
    requires Kept(s, prefix)
    ensures Kept(Apply(s, step), prefix)
  {
    match step
    case Read(_, own) =>
      LargestOfPart(own, s.ids, s.issued);
    case Insert(admin) =>
      if admin in s.offers {
        var o := s.offers[admin];
        if o.prefix == prefix {
          InsertOwn(s, prefix, o.n);
        } else {
          InsertOther(s, prefix, o.prefix, o.n);
        }
      }
    case Delete(id) =>
      WithoutKeeps(s.ids, id);
  }

  lemma {:induction false} RunKeeps(steps: seq<Step>, prefix: string)
    ensures Kept(After(steps), prefix)
  {
    if steps != [] {
      RunKeeps(steps[..|steps| - 1], prefix);
      StepKeeps(After(steps[..|steps| - 1]), steps[|steps| - 1], prefix);
    }
  }

  // ----- when a number comes back

  /**
   A number of at most nine digits, no more than one beyond the largest ever issued, was issued exactly when it is
   not beyond it.
   */
  lemma {:induction false} IssuedBefore(s: Registry, prefix: string, n: nat)
    requires Kept(s, prefix) && 1 <= n <= Largest(prefix, s.issued) + 1
    ensures n <= 999_999_999 ==> (FormatEmployeeId(prefix, n) in s.issued <==> n <= Largest(prefix, s.issued))
    ensures n <= 1_000_000_000
  {
    LargestBound(prefix, s.issued);
    ReadsBack(prefix, n);
  }

  /**
   Over every run, the ID offered next was issued before if and only if the
   account with the largest number ever issued is gone, or nine digits are used
   up and the first ID beyond them was issued.
   */
  lemma {:induction false} NextReused(steps: seq<Step>, prefix: string)
    ensures var s := After(steps);
            NextEmployeeId(prefix, s.ids) in s.issued <==>
              || Largest(prefix, s.ids) < Largest(prefix, s.issued)
              || (Largest(prefix, s.ids) == 999_999_999 && FormatEmployeeId(prefix, 1_000_000_000) in s.issued)
  {
    var s := After(steps);
    RunKeeps(steps, prefix);
    LargestOfPart(prefix, s.ids, s.issued);
    LargestBound(prefix, s.issued);
    IssuedBefore(s, prefix, Largest(prefix, s.ids) + 1);
  }

  /** Likewise for an offer read a while ago, with other administrators at work since. */
  lemma {:induction false} OfferReused(steps: seq<Step>, admin: nat)
    requires admin in After(steps).offers
    ensures var s := After(steps);
            var o := s.offers[admin];
            && o.n <= 1_000_000_000
            && (o.n < 1_000_000_000 ==>
                 (FormatEmployeeId(o.prefix, o.n) in s.issued <==> o.n <= Largest(o.prefix, s.issued)))
  {
    var o := After(steps).offers[admin];
    RunKeeps(steps, o.prefix);
    IssuedBefore(After(steps), o.prefix, o.n);
  }

  /** No ID occurs twice. */
  ghost predicate NoRepeats(ids: seq<string>) {
    forall i, j :: 0 <= i < j < |ids| ==> ids[i] != ids[j]
  }

  lemma {:induction false} WithoutRepeats(ids: seq<string>, id: string)
    requires NoRepeats(ids)
    ensures NoRepeats(Without(ids, id))
  {
    if ids != [] {
      var init := ids[..|ids| - 1];
      assert NoRepeats(init) && ids[|ids| - 1] !in init;
      WithoutRepeats(init, id);
      WithoutKeeps(init, id);
    }
  }

  /** At any time no two accounts share an ID; and if no account is ever deleted, no ID is ever issued twice. */
  lemma {:induction false} PresentDistinct(steps: seq<Step>)
    ensures NoRepeats(After(steps).ids)
    ensures (forall i :: 0 <= i < |steps| ==> !steps[i].Delete?) ==> After(steps).issued == After(steps).ids
  {
    if steps != [] {
      var before, step := steps[..|steps| - 1], steps[|steps| - 1];
      PresentDistinct(before);
      if step.Delete? {
        WithoutRepeats(After(before).ids, step.id);
      } else {
        assert forall i :: 0 <= i < |before| ==> before[i] == steps[i];
      }
    }
  }

  // ----- a number that comes back

  ghost predicate Holds(s: Registry, ids: seq<string>, issued: seq<string>) {
    s.ids == ids && s.issued == issued
  }

  function Hire(prefix: string): seq<Step> {
    [Read(0, prefix), Insert(0)]
  }

  lemma {:induction false} AfterHire(steps: seq<Step>, prefix: string)
    ensures After(steps + Hire(prefix)) == Apply(Apply(After(steps), Read(0, prefix)), Insert(0))
  {
    var all := steps + Hire(prefix);
    assert all[..|all| - 1] == steps + [Read(0, prefix)] && all[|all| - 1] == Insert(0);
    assert (steps + [Read(0, prefix)])[..|steps|] == steps;
  }

  /** Reading the next ID and using it at once. */
  lemma {:induction false} HireNext(steps: seq<Step>, prefix: string, ids: seq<string>, issued: seq<string>,
                                    next: string)
    requires Holds(After(steps), ids, issued) && next == NextEmployeeId(prefix, ids) && next !in ids
    ensures Holds(After(steps + Hire(prefix)), ids + [next], issued + [next])
  {
    AfterHire(steps, prefix);
  }

  lemma {:induction false} DeleteOne(steps: seq<Step>, ids: seq<string>, issued: seq<string>, id: string)
    requires Holds(After(steps), ids, issued)
    ensures Holds(After(steps + [Delete(id)]), Without(ids, id), issued)
  {
    assert (steps + [Delete(id)])[..|steps|] == steps;
  }

  lemma {:induction false} FirstTwo(prefix: string, a: string, b: string)
    requires a == FormatEmployeeId(prefix, 1) && b == FormatEmployeeId(prefix, 2)
    ensures a != b && NextEmployeeId(prefix, []) == a && NextEmployeeId(prefix, [a]) == b
  {
    SameNumber(prefix, 1, 2);
    ReadsBack(prefix, 1);
    LargestAnd(prefix, [], a);
    assert [] + [a] == [a];
  }

  lemma {:induction false} WithoutLast(a: string, b: string)
    requires a != b
    ensures Without([a, b], b) == [a]
  {
    assert [a, b][..1] == [a] && [a][..0] == [];
    assert Without([], b) == [];
    assert Without([a], b) == [a];
  }

  /** Two hires, the second account deleted, a third hire: the third person gets the second one's ID. */
  lemma {:induction false} DeletedNumberReturns(prefix: string, a: string, b: string)
    requires a == FormatEmployeeId(prefix, 1) && b == FormatEmployeeId(prefix, 2)
    ensures Holds(After(Hire(prefix) + Hire(prefix) + [Delete(b)] + Hire(prefix)), [a, b], [a, b, b])
  {
    var hire := Hire(prefix);
    FirstTwo(prefix, a, b);
    assert Holds(After([]), [], []);
    HireNext([], prefix, [], [], a);
    assert [] + hire == hire && [] + [a] == [a] && [a] + [b] == [a, b] && [a, b] + [b] == [a, b, b];
    HireNext(hire, prefix, [a], [a], b);
    DeleteOne(hire + hire, [a, b], [a, b], b);
    WithoutLast(a, b);
    HireNext(hire + hire + [Delete(b)], prefix, [a], [a, b], b);
  }
}

/** What an allocation answers, said case by case: the cursor first, then the greatest free block, then pages. */
module Requests {
  import opened FreeLists
  import opened Words

  /** Bucket g is the greatest in use. */
  ghost predicate IsGreatest(q: Buckets, g: int) {
    0 <= g < BUCKETS && q[g] != [] && forall b :: g < b < BUCKETS ==> q[b] == []
  }

  /** Some block of at least t units is filed. */
  ghost predicate SomeFits(q: Buckets, t: nat) {
    exists b :: t <= b < BUCKETS && q[b] != []
  }

  /** The first t units of what is under the cursor; nothing else changes. */
  ghost predicate FromCursor(s: State, t: nat, o: Outcome) {
    && o.ptr == s.current + 1 && o.asked == 0
    && o.s.q == s.q && o.s.initial == s.initial && o.s.initialLength == s.initialLength
    && o.s.current == s.current + t && o.s.currentLength + t == s.currentLength
  }

  /** The first t units of the oldest block of the greatest bucket in use, where the cursor then stands. */
  ghost predicate FromGreatest(q: Buckets, t: nat, o: Outcome) {
    exists g: nat :: IsGreatest(q, g) && FromBucket(q, g, t, o)
  }

  ghost predicate FromBucket(q: Buckets, g: nat, t: nat, o: Outcome)
    requires IsGreatest(q, g)
  {
    && o.ptr == q[g][0] + 1 && o.asked == 0
    && o.s.q == q && o.s.initial == q[g][0] && o.s.initialLength == g
    && o.s.current == q[g][0] + t && o.s.currentLength + t == g
  }

  /** The cursor at the greatest bucket in use, or where it was if none is. */
  ghost predicate CursorMoved(s: State, q: Buckets, s': State) {
    if forall b :: 0 <= b < BUCKETS ==> q[b] == [] then
      s'.initial == s.initial && s'.initialLength == s.initialLength
      && s'.current == s.current && s'.currentLength == s.currentLength
    else
      && IsGreatest(q, s'.initialLength)
      && s'.initial == s'.current == q[s'.initialLength][0] && s'.currentLength == s'.initialLength
  }

  /** Whole pages, as many as t units take, and what t leaves of them filed behind the first unit. */
  ghost predicate FromPages(q: Buckets, t: nat, page: nat, o: Outcome) {
    && (t <= TWO64 - UNITS_PER_PAGE ==> o.asked == (t + 255) / 256)
    && (t > TWO64 - UNITS_PER_PAGE ==> o.asked == 0)
    && o.ptr == (if page == 0 then 0 else page + 1)
    && o.s.q == if page == 0 || t % 256 == 0 then q
                else q[256 - t % 256 := q[256 - t % 256] + [page + 1]]
  }

  /** The outcome of asking for t units, headers included, when the page source would answer `page`. */
  ghost predicate Answers(s: State, t: nat, page: nat, o: Outcome)
    requires CursorOk(s)
  {
    if t >= 0x100 then
      FromPages(s.q, t, page, o) && o.s == s.(q := o.s.q)
    else if t <= s.currentLength then
      FromCursor(s, t, o)
    else if SomeFits(Refiled(s), t) then
      FromGreatest(Refiled(s), t, o)
    else
      FromPages(Refiled(s), t, page, o) && CursorMoved(s, Refiled(s), o.s)
  }

  /** The address a joins bucket b as its last; nothing else changes. */
  ghost predicate JoinsAsLast(q: Buckets, b: nat, a: nat, q': Buckets)
    requires b < BUCKETS
  {
    q'[b] == q[b] + [a] && forall c :: 0 <= c < BUCKETS && c != b ==> q'[c] == q[c]
  }

  /** Entry i leaves bucket b; those behind it move up. */
  ghost predicate LeavesAt(q: Buckets, b: nat, i: nat, q': Buckets)
    requires At(q, b, i)
  {
    q'[b] == q[b][..i] + q[b][i + 1..] && forall c :: 0 <= c < BUCKETS && c != b ==> q'[c] == q[c]
  }

  lemma QueueMoves(q: Buckets, b: nat)
    requires b < BUCKETS
    ensures forall a: nat :: JoinsAsLast(q, b, a, Append(q, b, a))
    ensures forall i: nat :: At(q, b, i) ==> LeavesAt(q, b, i, DropAt(q, b, i))
  {
  }

  /** What a refiling does to the queues: the head that was carved from goes, and its remainder joins as the last. */
  ghost predicate RefiledAs(s: State, q: Buckets) {
    if s.initial == s.current then q == s.q
    else
      && s.currentLength < s.initialLength < BUCKETS && s.q[s.initialLength] != []
      && q[s.initialLength] == s.q[s.initialLength][1..]
      && q[s.currentLength] == s.q[s.currentLength] + [s.current]
      && forall b :: 0 <= b < BUCKETS && b != s.initialLength && b != s.currentLength ==> q[b] == s.q[b]
  }

  lemma RefiledQueues(s: State)
    requires CursorOk(s)
    ensures RefiledAs(s, Refiled(s))
  {
  }

  lemma GreatestIs(q: Buckets)
    ensures Greatest(q, BUCKETS) >= 0 ==> IsGreatest(q, Greatest(q, BUCKETS))
    ensures Greatest(q, BUCKETS) < 0 <==> forall b :: 0 <= b < BUCKETS ==> q[b] == []
    ensures forall t: nat :: SomeFits(q, t) <==> t <= Greatest(q, BUCKETS)
  {
  }

  lemma PagesAnswer(s: State, target: nat, page: nat)
    requires target < TWO64 && CursorOk(s) && !Prepared(s, target).1
    ensures FromPages(Prepared(s, target).0.q, target, page, Serve(s, target, page))
    ensures Serve(s, target, page).s == Prepared(s, target).0.(q := Serve(s, target, page).s.q)
  {
    ServeCases(s, target, page);
    PagesAsked(target);
    hide Prepared, Serve, PagesFor;
  }

  lemma PagesAsked(target: nat)
    requires target < TWO64
    ensures PagesFor(target) == if target <= TWO64 - UNITS_PER_PAGE then (target + 255) / 256 else 0
  {
  }

  /** An allocation answers so. */
  lemma AllocationAnswers(s: State, length: nat, page: nat)
    requires CursorOk(s)
    ensures Answers(s, (length + 1) % TWO64, page, Allocate(s, length, page))
  {
    var t := (length + 1) % TWO64;
    GreatestIs(Refiled(s));
    if !Prepared(s, t).1 {
      PagesAnswer(s, t, page);
    }
    hide Refiled, SomeFits, FromPages, Greatest, PagesFor, ExcessFiled;
    var g := Greatest(Refiled(s), BUCKETS);
    if t < 0x100 && s.currentLength < t <= g {
      assert FromBucket(Refiled(s), g, t, Allocate(s, length, page));
    }
  }
}

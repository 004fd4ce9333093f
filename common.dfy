/** Shared vocabulary of the model: optional values, JavaScript truthiness, the role and
    status names both tiers use, ASCII string helpers, and order-preserving sequence
    operations (filter, find, distinct) with the facts every caller relies on. */
module Common {

  datatype Option<T> = None | Some(value: T)

  // ---------------------------------------------------------------------------
  // Roles and approval statuses

  // Role names as stored in the user table and carried in the token payload.
  const EMPLOYEE: string := "EMPLOYEE"
  const MANAGER: string := "MANAGER"
  const HR: string := "HR"
  const ADMIN: string := "ADMIN"

  /** The four role names the admin screens accept. */
  predicate KnownRole(role: string) {
    role == EMPLOYEE || role == MANAGER || role == HR || role == ADMIN
  }

  /** The three states of every approval workflow (`PENDING`, `APPROVED`, `REJECTED`). */
  datatype Status = Pending | Approved | Rejected

  function StatusName(s: Status): string {
    match s
    case Pending => "PENDING"
    case Approved => "APPROVED"
    case Rejected => "REJECTED"
  }

  /** A status string from a request body; anything else is no status at all. */
  function ParseStatus(s: string): (r: Option<Status>)
    ensures r.Some? ==> StatusName(r.value) == s
    ensures forall t: Status :: StatusName(t) == s ==> r == Some(t)
  {
    if s == "PENDING" then Some(Pending)
    else if s == "APPROVED" then Some(Approved)
    else if s == "REJECTED" then Some(Rejected)
    else None
  }

  /** A decision body: only APPROVED or REJECTED are decisions. */
  function ParseDecision(s: string): (r: Option<Status>)
    ensures r.Some? <==> s == "APPROVED" || s == "REJECTED"
    ensures r.Some? ==> r.value != Pending && StatusName(r.value) == s
  {
    if s == "APPROVED" then Some(Approved)
    else if s == "REJECTED" then Some(Rejected)
    else None
  }

  /** The decoded token attached to a request as `req.user`. Tokens are signed with
      `userId` and `role` only, so `id` and `employeeId`, which some handlers read, are
      None for every token the server issues. */
  datatype Payload = Payload(id: Option<int>, userId: Option<int>, role: string, employeeId: Option<int>)

  /** `req.user.id ?? req.user.userId`. */
  function ActingUserId(p: Payload): (r: Option<int>)
    ensures p.id.Some? ==> r == p.id
    ensures p.id.None? ==> r == p.userId
  {
    if p.id.Some? then p.id else p.userId
  }

  // ---------------------------------------------------------------------------
  // JavaScript truthiness

  /** `!!x` for a number that may be null or undefined: only non-zero numbers are truthy. */
  predicate Truthy(o: Option<int>) {
    o.Some? && o.value != 0
  }

  /** `!!s` for a string that may be missing: only non-empty strings are truthy. */
  predicate Present(o: Option<string>) {
    o.Some? && o.value != ""
  }

  /** `a || b` on optional numbers. */
  function OrElse(a: Option<int>, b: Option<int>): (r: Option<int>)
    ensures Truthy(a) ==> r == a
    ensures !Truthy(a) ==> r == b
  {
    if Truthy(a) then a else b
  }

  // ---------------------------------------------------------------------------
  // Strings

  function LowerChar(c: char): char {
    if 'A' <= c <= 'Z' then (c as int + 32) as char else c
  }

  /** `toLowerCase`, restricted to the ASCII letters. */
  function Lower(s: string): (r: string)
    ensures |r| == |s|
  {
    seq(|s|, i requires 0 <= i < |s| => LowerChar(s[i]))
  }

  lemma LowerIdempotent(s: string)
    ensures Lower(Lower(s)) == Lower(s)
  {
  }

  lemma LowerConcat(a: string, b: string)
    ensures Lower(a + b) == Lower(a) + Lower(b)
  {
  }

  /** The white space `trim` removes: the ASCII controls TAB, LF, VT, FF, CR, the line and
      paragraph separators, the byte-order mark and every space separator of Unicode. */
  predicate IsSpace(c: char) {
    || c == ' ' || c == '\t' || c == '\n' || c == '\r' || c == '\U{000B}' || c == '\U{000C}'
    || c == '\U{00A0}' || c == '\U{1680}' || '\U{2000}' <= c <= '\U{200A}'
    || c == '\U{2028}' || c == '\U{2029}' || c == '\U{202F}' || c == '\U{205F}'
    || c == '\U{3000}' || c == '\U{FEFF}'
  }

  predicate AllSpace(s: string) {
    forall i :: 0 <= i < |s| ==> IsSpace(s[i])
  }

  function TrimStart(s: string): (r: string)
    ensures r == [] || !IsSpace(r[0])
    ensures |r| <= |s|
  {
    if s != [] && IsSpace(s[0]) then TrimStart(s[1..]) else s
  }

  function TrimEnd(s: string): (r: string)
    ensures r == [] || !IsSpace(r[|r| - 1])
    ensures |r| <= |s|
  {
    if s != [] && IsSpace(s[|s| - 1]) then TrimEnd(s[..|s| - 1]) else s
  }

  /** `TrimStart` removes a prefix made only of white space. */
  lemma {:induction false} TrimStartSplits(s: string)
    ensures var k := |s| - |TrimStart(s)|; s == s[..k] + TrimStart(s) && AllSpace(s[..k])
  {
    if s != [] && IsSpace(s[0]) {
      var t := s[1..];
      TrimStartSplits(t);
      var r := TrimStart(t);
      var k := |t| - |r|;
      assert TrimStart(s) == r;
      assert s[..k + 1] == [s[0]] + t[..k];
      assert s == s[..k + 1] + r;
    } else {
      assert s[..0] == [];
    }
  }

  /** `TrimEnd` removes a suffix made only of white space. */
  lemma {:induction false} TrimEndSplits(s: string)
    ensures var k := |TrimEnd(s)|; s == TrimEnd(s) + s[k..] && AllSpace(s[k..])
  {
    if s != [] && IsSpace(s[|s| - 1]) {
      var u := s[..|s| - 1];
      TrimEndSplits(u);
      var k := |TrimEnd(s)|;
      assert u[k..] + [s[|s| - 1]] == s[k..];
      assert s == u + [s[|s| - 1]];
    }
  }

  /** `trim`: the string without leading and trailing white space. */
  function Trim(s: string): (r: string)
    ensures r == [] || (!IsSpace(r[0]) && !IsSpace(r[|r| - 1]))
    ensures |r| <= |s|
    ensures r == [] <==> AllSpace(s)
  {
    var t := TrimStart(s);
    TrimStartSplits(s);
    TrimEndSplits(t);
    assert s == s[..|s| - |t|] + t;
    TrimEnd(t)
  }

  /** Every character of the trimmed text comes from the original. */
  lemma TrimKeepsCharacters(s: string)
    ensures forall i :: 0 <= i < |Trim(s)| ==> Trim(s)[i] in s
  {
    var t := TrimStart(s);
    var k := |s| - |t|;
    var r := TrimEnd(t);
    TrimStartSplits(s);
    TrimEndSplits(t);
    forall i | 0 <= i < |r|
      ensures r[i] in s
    {
      assert r[i] == t[i] == s[k + i];
    }
  }

  lemma {:induction false} TrimStartSkipsSpace(p: string, s: string)
    requires AllSpace(p)
    ensures TrimStart(p + s) == TrimStart(s)
  {
    if p != [] {
      assert (p + s)[1..] == p[1..] + s;
      TrimStartSkipsSpace(p[1..], s);
    } else {
      assert p + s == s;
    }
  }

  lemma {:induction false} TrimEndSkipsSpace(s: string, q: string)
    requires AllSpace(q)
    ensures TrimEnd(s + q) == TrimEnd(s)
  {
    if q != [] {
      assert (s + q)[..|s + q| - 1] == s + q[..|q| - 1];
      TrimEndSkipsSpace(s, q[..|q| - 1]);
    } else {
      assert s + q == s;
    }
  }

  lemma {:induction false} TrimStartKeepsTail(s: string, q: string)
    requires !AllSpace(s)
    ensures TrimStart(s + q) == TrimStart(s) + q
  {
    if IsSpace(s[0]) {
      assert (s + q)[1..] == s[1..] + q;
      TrimStartKeepsTail(s[1..], q);
    }
  }

  /** Surrounding white space does not change the trimmed text. */
  lemma TrimIgnoresPadding(p: string, s: string, q: string)
    requires AllSpace(p) && AllSpace(q)
    ensures Trim(p + s + q) == Trim(s)
  {
    assert p + s + q == p + (s + q);
    TrimStartSkipsSpace(p, s + q);
    if AllSpace(s) {
      assert AllSpace(s + q);
      TrimStartAllSpace(s + q);
      TrimStartAllSpace(s);
    } else {
      TrimStartKeepsTail(s, q);
      TrimEndSkipsSpace(TrimStart(s), q);
    }
  }

  lemma {:induction false} TrimStartAllSpace(s: string)
    requires AllSpace(s)
    ensures TrimStart(s) == []
  {
    if s != [] {
      TrimStartAllSpace(s[1..]);
    }
  }

  predicate StartsWith(s: string, prefix: string) {
    |prefix| <= |s| && s[..|prefix|] == prefix
  }

  /** `s.includes(t)`. */
  predicate Contains(s: string, t: string)
    decreases |s|
  {
    StartsWith(s, t) || (s != [] && Contains(s[1..], t))
  }

  lemma {:induction false} ContainsAt(s: string, t: string, i: nat)
    requires i + |t| <= |s| && s[i..i + |t|] == t
    ensures Contains(s, t)
  {
    if i > 0 {
      assert s[1..][i - 1..i - 1 + |t|] == t;
      ContainsAt(s[1..], t, i - 1);
    }
  }

  lemma {:induction false} ContainsWitness(s: string, t: string) returns (i: nat)
    requires Contains(s, t)
    ensures i + |t| <= |s| && s[i..i + |t|] == t
  {
    if StartsWith(s, t) {
      i := 0;
    } else {
      var j := ContainsWitness(s[1..], t);
      i := j + 1;
      assert s[i..i + |t|] == s[1..][j..j + |t|];
    }
  }

  /** A needle is never longer than a haystack that contains it. */
  lemma ContainsLength(s: string, t: string)
    ensures Contains(s, t) ==> |t| <= |s|
  {
    if Contains(s, t) {
      var i := ContainsWitness(s, t);
    }
  }

  /** A non-empty needle's first character occurs in the haystack. */
  lemma ContainsFirstChar(s: string, t: string)
    ensures Contains(s, t) && t != [] ==> t[0] in s
  {
    if Contains(s, t) && t != [] {
      var i := ContainsWitness(s, t);
      assert s[i] == t[0];
    }
  }

  lemma ContainsSelf(s: string)
    ensures Contains(s, s) && Contains(s, "")
  {
  }

  /** The text before the first character satisfying `stop` (all of `s` if none does):
      `s.split(sep)[0]` for a one-character separator set. */
  function TakeUntil(s: string, stop: char -> bool): (r: string)
    ensures |r| <= |s| && r == s[..|r|]
    ensures forall i :: 0 <= i < |r| ==> !stop(r[i])
    ensures |r| < |s| ==> stop(s[|r|])
  {
    if s == [] || stop(s[0]) then [] else [s[0]] + TakeUntil(s[1..], stop)
  }

  /** The text after the first character satisfying `stop`, when there is one. */
  function DropThrough(s: string, stop: char -> bool): (r: Option<string>)
    ensures r.None? <==> |TakeUntil(s, stop)| == |s|
    ensures r.Some? ==> s == TakeUntil(s, stop) + [s[|TakeUntil(s, stop)|]] + r.value
  {
    var head := TakeUntil(s, stop);
    if |head| == |s| then None
    else
      assert s == head + [s[|head|]] + s[|head| + 1..];
      Some(s[|head| + 1..])
  }

  // ---------------------------------------------------------------------------
  // Sequences

  /** `s.map(f)`. */
  function Mapped<T, U>(s: seq<T>, f: T -> U): (r: seq<U>)
    ensures |r| == |s| && forall i :: 0 <= i < |s| ==> r[i] == f(s[i])
  {
    seq(|s|, i requires 0 <= i < |s| => f(s[i]))
  }

  /** `s.filter(p)`: the elements satisfying `p`, in their original order. */
  function Filter<T(!new)>(s: seq<T>, p: T -> bool): (r: seq<T>)
    ensures |r| <= |s|
    ensures forall x :: x in r <==> x in s && p(x)
  {
    if s == [] then [] else (if p(s[0]) then [s[0]] else []) + Filter(s[1..], p)
  }

  /** `a` is `b` with some elements left out (order kept). */
  predicate SubseqOf<T(==)>(a: seq<T>, b: seq<T>)
    decreases |b|
  {
    if b == [] then a == []
    else (a != [] && a[0] == b[0] && SubseqOf(a[1..], b[1..])) || SubseqOf(a, b[1..])
  }

  lemma {:induction false} SubseqOfItself<T>(s: seq<T>)
    ensures SubseqOf(s, s)
  {
    if s != [] {
      SubseqOfItself(s[1..]);
    }
  }

  /** A subsequence of a subsequence is a subsequence. */
  lemma {:induction false} SubseqTransitive<T>(a: seq<T>, b: seq<T>, c: seq<T>)
    requires SubseqOf(a, b) && SubseqOf(b, c)
    ensures SubseqOf(a, c)
    decreases |c|
  {
    if c == [] {
    } else if SubseqOf(b, c[1..]) {
      SubseqTransitive(a, b, c[1..]);
    } else if a != [] && a[0] == b[0] && SubseqOf(a[1..], b[1..]) {
      SubseqTransitive(a[1..], b[1..], c[1..]);
    } else {
      SubseqTransitive(a, b[1..], c[1..]);
    }
  }

  lemma {:induction false} FilterIsSubseq<T(!new)>(s: seq<T>, p: T -> bool)
    ensures SubseqOf(Filter(s, p), s)
  {
    if s != [] {
      FilterIsSubseq(s[1..], p);
      var a := Filter(s, p);
      if p(s[0]) {
        assert a != [] && a[0] == s[0] && a[1..] == Filter(s[1..], p);
      } else {
        assert a == Filter(s[1..], p);
      }
    }
  }

  lemma {:induction false} FilterKeepsAll<T(!new)>(s: seq<T>, p: T -> bool)
    requires forall i :: 0 <= i < |s| ==> p(s[i])
    ensures Filter(s, p) == s
  {
    if s != [] {
      FilterKeepsAll(s[1..], p);
    }
  }

  lemma {:induction false} FilterDropsAll<T(!new)>(s: seq<T>, p: T -> bool)
    requires forall i :: 0 <= i < |s| ==> !p(s[i])
    ensures Filter(s, p) == []
  {
    if s != [] {
      FilterDropsAll(s[1..], p);
    }
  }

  lemma {:induction false} FilterConcat<T(!new)>(a: seq<T>, b: seq<T>, p: T -> bool)
    ensures Filter(a + b, p) == Filter(a, p) + Filter(b, p)
  {
    if a == [] {
      assert a + b == b;
    } else {
      assert (a + b)[1..] == a[1..] + b;
      FilterConcat(a[1..], b, p);
    }
  }

  function Not<T>(p: T -> bool): T -> bool {
    (x: T) => !p(x)
  }

  /** A filter and its complement split a sequence. */
  lemma {:induction false} FilterSplit<T(!new)>(s: seq<T>, p: T -> bool)
    ensures |Filter(s, p)| + |Filter(s, Not(p))| == |s|
  {
    if s != [] {
      FilterSplit(s[1..], p);
    }
  }

  /** Filtering a sequence extended by one element. */
  lemma FilterSnoc<T(!new)>(s: seq<T>, x: T, p: T -> bool)
    ensures Filter(s + [x], p) == Filter(s, p) + (if p(x) then [x] else [])
  {
    FilterConcat(s, [x], p);
    assert Filter([x], p) == (if p(x) then [x] else []) + Filter([x][1..], p);
  }

  /** Filters that agree on every element give the same result. */
  lemma {:induction false} FilterAgreeing<T(!new)>(s: seq<T>, p: T -> bool, q: T -> bool)
    requires forall i :: 0 <= i < |s| ==> p(s[i]) == q(s[i])
    ensures Filter(s, p) == Filter(s, q)
  {
    if s != [] {
      FilterAgreeing(s[1..], p, q);
    }
  }

  /** A non-empty sequence is its front followed by its last element. */
  lemma FrontLast<T>(s: seq<T>)
    requires s != []
    ensures s == s[..|s| - 1] + [s[|s| - 1]]
  {
  }

  lemma MappedConcat<T, U>(a: seq<T>, b: seq<T>, f: T -> U)
    ensures Mapped(a + b, f) == Mapped(a, f) + Mapped(b, f)
  {
    assert forall i :: 0 <= i < |a + b| ==> Mapped(a + b, f)[i] == (Mapped(a, f) + Mapped(b, f))[i];
  }

  /** Two filters applied one after the other commute. */
  lemma {:induction false} FilterCommutes<T(!new)>(s: seq<T>, p: T -> bool, q: T -> bool)
    ensures Filter(Filter(s, p), q) == Filter(Filter(s, q), p)
  {
    if s != [] {
      FilterCommutes(s[1..], p, q);
      var h := [s[0]];
      assert s == h + s[1..];
      FilterConcat(h, s[1..], p);
      FilterConcat(h, s[1..], q);
      FilterConcat(Filter(h, p), Filter(s[1..], p), q);
      FilterConcat(Filter(h, q), Filter(s[1..], q), p);
    }
  }

  /** Two filters in a row keep exactly the elements satisfying both. */
  lemma {:induction false} FilterTwice<T(!new)>(s: seq<T>, p: T -> bool, q: T -> bool, both: T -> bool)
    requires forall x :: both(x) == (p(x) && q(x))
    ensures Filter(Filter(s, p), q) == Filter(s, both)
  {
    if s != [] {
      FilterTwice(s[1..], p, q, both);
      FilterConcat(if p(s[0]) then [s[0]] else [], Filter(s[1..], p), q);
    }
  }

  /** A predicate that only the element at `k` satisfies selects exactly that element. */
  lemma {:induction false} OnlyOneMatches<T(!new)>(s: seq<T>, k: nat, p: T -> bool)
    requires k < |s| && p(s[k])
    requires forall j :: 0 <= j < |s| && j != k ==> !p(s[j])
    ensures |Filter(s, p)| == 1
  {
    if k == 0 {
      FilterDropsAll(s[1..], p);
    } else {
      OnlyOneMatches(s[1..], k - 1, p);
    }
  }

  /** Predicates that agree everywhere filter alike. */
  lemma {:induction false} FilterSame<T(!new)>(s: seq<T>, p: T -> bool, q: T -> bool)
    requires forall x :: p(x) == q(x)
    ensures Filter(s, p) == Filter(s, q)
  {
    if s != [] {
      FilterSame(s[1..], p, q);
    }
  }

  /** Filtering keeps every copy of an element it admits and none of one it rejects. */
  lemma {:induction false} FilterMultiplicity<T(!new)>(s: seq<T>, p: T -> bool, x: T)
    ensures multiset(Filter(s, p))[x] == if p(x) then multiset(s)[x] else 0
  {
    if s != [] {
      FilterMultiplicity(s[1..], p, x);
      assert s == [s[0]] + s[1..];
      assert multiset(s) == multiset([s[0]]) + multiset(s[1..]);
    }
  }

  /** Filters by mutually exclusive conditions never count an element twice; when every
      element satisfies one of them, the counts add up to the length. */
  lemma {:induction false} ExclusiveCounts<T(!new)>(s: seq<T>, p: T -> bool, q: T -> bool, r: T -> bool)
    requires forall x :: !(p(x) && q(x)) && !(p(x) && r(x)) && !(q(x) && r(x))
    ensures |Filter(s, p)| + |Filter(s, q)| + |Filter(s, r)| <= |s|
    ensures (forall i :: 0 <= i < |s| ==> p(s[i]) || q(s[i]) || r(s[i])) ==>
              |Filter(s, p)| + |Filter(s, q)| + |Filter(s, r)| == |s|
  {
    if s != [] {
      ExclusiveCounts(s[1..], p, q, r);
    }
  }

  /** Index of the first element satisfying `p` (`findIndex`). */
  function FirstIndex<T>(s: seq<T>, p: T -> bool): (r: Option<nat>)
    ensures r.None? ==> forall i :: 0 <= i < |s| ==> !p(s[i])
    ensures r.Some? ==> r.value < |s| && p(s[r.value]) && forall j :: 0 <= j < r.value ==> !p(s[j])
  {
    if s == [] then None
    else if p(s[0]) then Some(0)
    else match FirstIndex(s[1..], p)
      case None => None
      case Some(i) => Some(i + 1)
  }

  /** `s.find(p)`: the first element satisfying `p`. */
  function Find<T>(s: seq<T>, p: T -> bool): (r: Option<T>)
    ensures r.None? <==> forall i :: 0 <= i < |s| ==> !p(s[i])
    ensures r.Some? ==> r.value in s && p(r.value)
    ensures forall i :: 0 <= i < |s| && p(s[i]) && (forall j :: 0 <= j < i ==> !p(s[j])) ==> r == Some(s[i])
  {
    match FirstIndex(s, p)
    case None => None
    case Some(i) => Some(s[i])
  }

  /** `s.filter((_, i) => i !== k)`: the sequence without position `k`. */
  function RemoveAt<T>(s: seq<T>, k: int): (r: seq<T>)
    ensures 0 <= k < |s| ==> r == s[..k] + s[k + 1..]
    ensures !(0 <= k < |s|) ==> r == s
  {
    if s == [] then []
    else if k == 0 then s[1..]
    else [s[0]] + RemoveAt(s[1..], k - 1)
  }

  predicate NoDuplicates<T(==)>(s: seq<T>) {
    forall i, j :: 0 <= i < j < |s| ==> s[i] != s[j]
  }

  /** The distinct elements of `s` in the order of their first occurrence
      (`Array.from(new Set(s))`). */
  function Distinct<T(==,!new)>(s: seq<T>): (r: seq<T>)
    ensures NoDuplicates(r)
    ensures forall x :: x in r <==> x in s
    ensures |r| <= |s|
  {
    if s == [] then []
    else
      var r := Distinct(s[..|s| - 1]);
      assert forall x :: x in s <==> x in s[..|s| - 1] || x == s[|s| - 1];
      if s[|s| - 1] in r then r else r + [s[|s| - 1]]
  }

  /** Distinct keeps first occurrences: an element that appears before another in the
      distinct list first appears earlier in the input. */
  lemma {:induction false} DistinctIsSubseq<T(!new)>(s: seq<T>)
    ensures SubseqOf(Distinct(s), s)
  {
    if s != [] {
      var init := s[..|s| - 1];
      DistinctIsSubseq(init);
      assert s == init + [s[|s| - 1]];
      if s[|s| - 1] in Distinct(init) {
        SubseqAppendRight(Distinct(init), init, [s[|s| - 1]]);
      } else {
        SubseqAppendBoth(Distinct(init), init, s[|s| - 1]);
      }
    }
  }

  lemma {:induction false} SubseqAppendRight<T>(a: seq<T>, b: seq<T>, c: seq<T>)
    requires SubseqOf(a, b)
    ensures SubseqOf(a, b + c)
    decreases |b|
  {
    if b == [] {
      SubseqOfAnything(c);
      assert b + c == c;
    } else {
      assert (b + c)[1..] == b[1..] + c;
      if a != [] && a[0] == b[0] && SubseqOf(a[1..], b[1..]) {
        SubseqAppendRight(a[1..], b[1..], c);
      } else {
        SubseqAppendRight(a, b[1..], c);
      }
    }
  }

  lemma {:induction false} SubseqOfAnything<T>(c: seq<T>)
    ensures SubseqOf([], c)
  {
    if c != [] {
      SubseqOfAnything(c[1..]);
    }
  }

  lemma {:induction false} SubseqAppendBoth<T>(a: seq<T>, b: seq<T>, x: T)
    requires SubseqOf(a, b)
    ensures SubseqOf(a + [x], b + [x])
    decreases |b|
  {
    if b == [] {
      assert a == [];
      assert SubseqOf([x][1..], [x][1..]);
    } else {
      assert (b + [x])[1..] == b[1..] + [x];
      if a != [] && a[0] == b[0] && SubseqOf(a[1..], b[1..]) {
        SubseqAppendBoth(a[1..], b[1..], x);
        assert (a + [x])[1..] == a[1..] + [x];
      } else {
        SubseqAppendBoth(a, b[1..], x);
      }
    }
  }

  /** The position of the first occurrence of `x`. */
  function FirstPos<T(==)>(s: seq<T>, x: T): (r: nat)
    requires x in s
    ensures r < |s| && s[r] == x
    ensures forall i :: 0 <= i < r ==> s[i] != x
  {
    if s[0] == x then 0 else 1 + FirstPos(s[1..], x)
  }

  /** Appending does not move a first occurrence. */
  lemma FirstPosSnoc<T>(s: seq<T>, y: T, x: T)
    requires x in s
    ensures FirstPos(s + [y], x) == FirstPos(s, x)
  {
    var a, b := FirstPos(s + [y], x), FirstPos(s, x);
    assert (s + [y])[b] == x;
  }

  /** `Array.from(new Set(s))` lists the elements in the order of their first occurrences. */
  lemma {:induction false} DistinctInFirstOccurrenceOrder<T(!new)>(s: seq<T>)
    ensures forall i, j :: 0 <= i < j < |Distinct(s)| ==> FirstPos(s, Distinct(s)[i]) < FirstPos(s, Distinct(s)[j])
  {
    if s != [] {
      var init, last := s[..|s| - 1], s[|s| - 1];
      DistinctInFirstOccurrenceOrder(init);
      assert s == init + [last];
      var d, r := Distinct(init), Distinct(s);
      forall x | x in d
        ensures FirstPos(s, x) == FirstPos(init, x) < |init|
      {
        FirstPosSnoc(init, last, x);
      }
      if last !in d {
        assert FirstPos(s, last) == |init| by {
          assert last !in init;
        }
      }
      forall i, j | 0 <= i < j < |r|
        ensures FirstPos(s, r[i]) < FirstPos(s, r[j])
      {
        assert r[i] == d[i];
        if j < |d| {
          assert r[j] == d[j];
        }
      }
    }
  }

  /** A list without duplicates has as many elements as the set of its elements. */
  lemma {:induction false} DistinctCardinality<T(!new)>(s: seq<T>)
    requires NoDuplicates(s)
    ensures |set x | x in s| == |s|
  {
    if s != [] {
      var init := s[..|s| - 1];
      DistinctCardinality(init);
      var last := s[|s| - 1];
      assert (set x | x in s) == (set x | x in init) + {last};
      assert last !in init;
    }
  }

  /** `new Set(s).size`: the number of distinct elements, never more than the length. */
  lemma SetSizeIsDistinctLength<T(!new)>(s: seq<T>)
    ensures |set x | x in s| == |Distinct(s)| <= |s|
  {
    DistinctCardinality(Distinct(s));
    assert (set x | x in s) == (set x | x in Distinct(s));
  }

  /** A subset is no larger than its superset. */
  lemma SubsetCardinality<T>(a: set<T>, b: set<T>)
    requires a <= b
    ensures |a| <= |b|
  {
    assert b == a + (b - a);
  }
}

/** Generated node and edge ids: how they are built and what can be read back from them. Page ids
    may hold the dashes that join the parts of an id. */
module GraphIds {
  import opened Sequences
  import opened Partition

  const GENERAL: string := "__GENERAL__"

  predicate NoDash(s: string) {
    '-' !in s
  }

  function Digit(n: nat): char
    requires n < 10
  {
    "0123456789"[n]
  }

  function Decimal(n: nat): (s: string)
    ensures s != [] && NoDash(s) && s[0] != '_'
  {
    if n < 10 then [Digit(n)] else Decimal(n / 10) + [Digit(n % 10)]
  }

  lemma {:induction false} DecimalInjective(a: nat, b: nat)
    requires Decimal(a) == Decimal(b)
    ensures a == b
  {
    var s := Decimal(a);
    assert a >= 10 ==> s[..|s| - 1] == Decimal(a / 10) && s[|s| - 1] == Digit(a % 10);
    assert b >= 10 ==> s[..|s| - 1] == Decimal(b / 10) && s[|s| - 1] == Digit(b % 10);
    if a >= 10 {
      DecimalInjective(a / 10, b / 10);
    }
  }

  function JoinDash(parts: seq<string>): string {
    if parts == [] then ""
    else if |parts| == 1 then parts[0]
    else parts[0] + "-" + JoinDash(parts[1..])
  }

  // The hash behind stable ids and the order in which members are listed.
  datatype Hashing = Hashing(digest: string -> string, sorted: seq<Id> -> seq<Id>)

  // An ideal hash: no collisions, and no dash among its hex digits.
  ghost predicate Ideal(h: Hashing) {
    && (forall x, y :: h.digest(x) == h.digest(y) ==> x == y)
    && forall x :: NoDash(h.digest(x))
  }

  function StableId(h: Hashing, key: string, members: seq<Id>): string {
    h.digest(JoinDash([key] + h.sorted(members)))
  }

  function BookId(h: Hashing, key: string, pages: seq<Id>): Id {
    "book-" + StableId(h, key, pages)
  }

  function ShelfId(h: Hashing, key: string, books: seq<Id>): Id {
    "shelf-" + StableId(h, key, books)
  }

  /** Splitting at the first dash: dash-free heads of equal strings agree. */
  lemma {:induction false} HeadBeforeDash(a: string, x: string, b: string, y: string)
    requires NoDash(a) && NoDash(b)
    requires (x == "" || "-" <= x) && (y == "" || "-" <= y) && a + x == b + y
    ensures a == b
  {
    if |a| < |b| {
      LongerHeadHasDash(a, x, b, y);
    } else if |b| < |a| {
      LongerHeadHasDash(b, y, a, x);
    } else {
      assert a == (a + x)[..|a|] == (b + y)[..|b|] == b;
    }
  }

  lemma {:induction false} LongerHeadHasDash(a: string, x: string, b: string, y: string)
    requires |a| < |b| && (x == "" || "-" <= x) && a + x == b + y
    ensures '-' in b
  {
    assert b[|a|] == (b + y)[|a|] == (a + x)[|a|] == x[0];
  }

  /** Splitting at the last dash: dash-free tails of equal strings agree. */
  lemma {:induction false} TailAfterDash(a: string, x: string, b: string, y: string)
    requires NoDash(x) && NoDash(y) && a + "-" + x == b + "-" + y
    ensures a == b && x == y
  {
    var s := a + "-" + x;
    if |a| < |b| {
      LongerTailHasDash(a, x, b, y);
    } else if |b| < |a| {
      LongerTailHasDash(b, y, a, x);
    } else {
      assert a == s[..|a|] == b && x == s[|a| + 1..] == y;
    }
  }

  lemma {:induction false} LongerTailHasDash(a: string, x: string, b: string, y: string)
    requires |a| < |b| && a + "-" + x == b + "-" + y
    ensures '-' in x
  {
    var s := a + "-" + x;
    assert '-' == s[|b|] == x[|b| - |a| - 1];
  }

  /** Within one rebuild community keys differ and contain no dash, so stable ids differ
      whatever the members are. */
  lemma {:induction false} StableIdsFollowKeys(h: Hashing, k: string, ms: seq<Id>, l: string, ns: seq<Id>)
    requires Ideal(h) && NoDash(k) && NoDash(l)
    requires StableId(h, k, ms) == StableId(h, l, ns)
    ensures k == l
  {
    JoinStarts(k, h.sorted(ms));
    JoinStarts(l, h.sorted(ns));
    var x :| JoinDash([k] + h.sorted(ms)) == k + x && (x == "" || "-" <= x);
    var y :| JoinDash([l] + h.sorted(ns)) == l + y && (y == "" || "-" <= y);
    HeadBeforeDash(k, x, l, y);
  }

  lemma {:induction false} JoinStarts(k: string, rest: seq<string>)
    ensures exists x :: JoinDash([k] + rest) == k + x && (x == "" || "-" <= x)
  {
    if rest == [] {
      assert [k] + rest == [k];
      assert JoinDash([k] + rest) == k + "";
    } else {
      assert ([k] + rest)[1..] == rest;
      var x := "-" + JoinDash(rest);
      assert k + "-" + JoinDash(rest) == k + x;
    }
  }

  // ---------------------------------------------------------------- what a stable id tells of its members

  // The order of strings by their first differing character.
  predicate Le(a: string, b: string) {
    a == "" || (b != "" && (a[0] < b[0] || (a[0] == b[0] && Le(a[1..], b[1..]))))
  }

  ghost predicate InOrder(xs: seq<Id>) {
    forall i, j | 0 <= i < j < |xs| :: Le(xs[i], xs[j])
  }

  // Listing in order repeats and loses nothing.
  ghost predicate Sorts(h: Hashing) {
    forall xs :: multiset(h.sorted(xs)) == multiset(xs) && InOrder(h.sorted(xs))
  }

  lemma {:induction false} LeAntisymmetric(a: string, b: string)
    requires Le(a, b) && Le(b, a)
    ensures a == b
  {
    if a != "" {
      LeAntisymmetric(a[1..], b[1..]);
      assert a == [a[0]] + a[1..] && b == [b[0]] + b[1..];
    }
  }

  function Dashes(s: string): nat {
    if s == "" then 0 else (if s[0] == '-' then 1 else 0) + Dashes(s[1..])
  }

  /** The dash-free pieces of a string. */
  function Pieces(s: string): (r: seq<string>)
    ensures |r| == Dashes(s) + 1
  {
    if s == "" then [""]
    else
      var rest := Pieces(s[1..]);
      if s[0] == '-' then [""] + rest else [[s[0]] + rest[0]] + rest[1..]
  }

  function AllPieces(xs: seq<string>): (r: seq<string>)
    ensures r == [] <==> xs == []
  {
    if xs == [] then [] else Pieces(xs[0]) + AllPieces(xs[1..])
  }

  lemma {:induction false} PiecesAround(a: string, b: string)
    ensures Pieces(a + "-" + b) == Pieces(a) + Pieces(b)
  {
    var s := a + "-" + b;
    if a == "" {
      assert s[1..] == b;
    } else {
      assert s[1..] == a[1..] + "-" + b;
      PiecesAround(a[1..], b);
    }
  }

  lemma {:induction false} JoinOfPieces(s: string)
    ensures JoinDash(Pieces(s)) == s
  {
    if s != "" {
      var rest := Pieces(s[1..]);
      JoinOfPieces(s[1..]);
      assert s == [s[0]] + s[1..];
      if s[0] == '-' {
        assert ([""] + rest)[1..] == rest;
      } else {
        assert ([[s[0]] + rest[0]] + rest[1..])[1..] == rest[1..];
      }
    }
  }

  lemma {:induction false} PiecesOfJoin(xs: seq<string>)
    requires xs != []
    ensures Pieces(JoinDash(xs)) == AllPieces(xs)
  {
    if |xs| == 1 {
      assert xs[1..] == [];
    } else {
      PiecesOfJoin(xs[1..]);
      PiecesAround(xs[0], JoinDash(xs[1..]));
    }
  }

  lemma {:induction false} OnePiece(k: string)
    requires NoDash(k)
    ensures Pieces(k) == [k] && Dashes(k) == 0
  {
    if k != "" {
      OnePiece(k[1..]);
      assert k == [k[0]] + k[1..];
    }
  }

  lemma {:induction false} JoinsEqualIff(xs: seq<string>, ys: seq<string>)
    requires xs != [] && ys != []
    ensures JoinDash(xs) == JoinDash(ys) <==> AllPieces(xs) == AllPieces(ys)
  {
    PiecesOfJoin(xs);
    PiecesOfJoin(ys);
    JoinOfPieces(JoinDash(xs));
    JoinOfPieces(JoinDash(ys));
  }

  /** Two stable ids are equal exactly when their keys are and their members, in order, fall into
      the same dash-free pieces. */
  lemma {:induction false} StableIdsEqualIff(h: Hashing, k: string, ms: seq<Id>, l: string, ns: seq<Id>)
    requires Ideal(h) && NoDash(k) && NoDash(l)
    ensures StableId(h, k, ms) == StableId(h, l, ns) <==>
              k == l && AllPieces(h.sorted(ms)) == AllPieces(h.sorted(ns))
  {
    var xs, ys := [k] + h.sorted(ms), [l] + h.sorted(ns);
    assert xs[1..] == h.sorted(ms) && ys[1..] == h.sorted(ns);
    OnePiece(k);
    OnePiece(l);
    JoinsEqualIff(xs, ys);
    var a, b := AllPieces(h.sorted(ms)), AllPieces(h.sorted(ns));
    assert ([k] + a)[0] == k && ([k] + a)[1..] == a && ([l] + b)[0] == l && ([l] + b)[1..] == b;
  }

  function TotalDashes(xs: seq<Id>): nat {
    if xs == [] then 0 else Dashes(xs[0]) + TotalDashes(xs[1..])
  }

  lemma {:induction false} PieceCount(xs: seq<Id>)
    ensures |AllPieces(xs)| == |xs| + TotalDashes(xs)
  {
    if xs != [] { PieceCount(xs[1..]); }
  }

  lemma {:induction false} TotalSplits(xs: seq<Id>, ys: seq<Id>)
    ensures TotalDashes(xs + ys) == TotalDashes(xs) + TotalDashes(ys)
  {
    if xs == [] {
      assert xs + ys == ys;
    } else {
      TotalSplits(xs[1..], ys);
      assert (xs + ys)[1..] == xs[1..] + ys;
    }
  }

  lemma {:induction false} TotalWithout(xs: seq<Id>, k: nat)
    requires k < |xs|
    ensures TotalDashes(xs) == Dashes(xs[k]) + TotalDashes(xs[..k] + xs[k + 1..])
  {
    assert xs == xs[..k] + ([xs[k]] + xs[k + 1..]);
    TotalSplits(xs[..k], [xs[k]] + xs[k + 1..]);
    TotalSplits(xs[..k], xs[k + 1..]);
    assert ([xs[k]] + xs[k + 1..])[1..] == xs[k + 1..];
  }

  lemma {:induction false} CountWithout(xs: seq<Id>, k: nat)
    requires k < |xs|
    ensures multiset(xs[..k] + xs[k + 1..]) == multiset(xs) - multiset{xs[k]}
  {
    assert xs == xs[..k] + ([xs[k]] + xs[k + 1..]);
  }

  /** The dashes of a list do not depend on its order. */
  lemma {:induction false} TotalIsUnordered(xs: seq<Id>, ys: seq<Id>)
    requires multiset(xs) == multiset(ys)
    ensures TotalDashes(xs) == TotalDashes(ys)
    decreases |xs|
  {
    hide Dashes, TotalDashes;
    assert |multiset(xs)| == |xs| && |multiset(ys)| == |ys|;
    if xs != [] {
      assert xs[0] in multiset(ys);
      var k :| 0 <= k < |ys| && ys[k] == xs[0];
      TotalWithout(xs, 0);
      TotalWithout(ys, k);
      CountWithout(xs, 0);
      CountWithout(ys, k);
      TotalIsUnordered(xs[..0] + xs[1..], ys[..k] + ys[k + 1..]);
    } else {
      assert ys == xs;
    }
  }

  /** Equal stable ids with member lists of equal size, exactly when these hold equally many
      dashes. */
  lemma {:induction false} SameSizeIff(h: Hashing, k: string, ms: seq<Id>, l: string, ns: seq<Id>)
    requires Ideal(h) && Sorts(h) && NoDash(k) && NoDash(l) && StableId(h, k, ms) == StableId(h, l, ns)
    ensures |ms| == |ns| <==> TotalDashes(ms) == TotalDashes(ns)
  {
    hide AllPieces, TotalDashes;
    StableIdsEqualIff(h, k, ms, l, ns);
    SortedHasSame(h, ms);
    SortedHasSame(h, ns);
    PieceCount(h.sorted(ms));
    PieceCount(h.sorted(ns));
    TotalIsUnordered(h.sorted(ms), ms);
    TotalIsUnordered(h.sorted(ns), ns);
  }

  // Ids that cannot be mistaken for others when joined: their first piece tells how many follow,
  // or all are of one length.
  ghost predicate Uniform(xs: seq<Id>, ys: seq<Id>) {
    (exists f :: Headed(f, xs + ys)) || exists n :: HaveLength(xs + ys, n)
  }

  ghost predicate Headed(f: string -> nat, xs: seq<Id>) {
    forall x | x in xs :: Dashes(x) == f(Pieces(x)[0])
  }

  ghost predicate HaveLength(xs: seq<Id>, n: nat) {
    forall x | x in xs :: |x| == n
  }

  lemma {:induction false} PiecesOfHeaded(xs: seq<Id>, ys: seq<Id>, f: string -> nat)
    requires AllPieces(xs) == AllPieces(ys) && Headed(f, xs + ys)
    ensures xs == ys
    decreases |xs|
  {
    if xs != [] {
      var x, y := xs[0], ys[0];
      assert x in xs + ys && y in xs + ys;
      assert Pieces(x)[0] == AllPieces(xs)[0] == AllPieces(ys)[0] == Pieces(y)[0];
      var d := Dashes(x);
      assert Pieces(x) == AllPieces(xs)[..d + 1] == AllPieces(ys)[..d + 1] == Pieces(y);
      assert AllPieces(xs[1..]) == AllPieces(xs)[d + 1..] == AllPieces(ys)[d + 1..] == AllPieces(ys[1..]);
      JoinOfPieces(x);
      JoinOfPieces(y);
      assert forall z | z in xs[1..] + ys[1..] :: z in xs + ys;
      PiecesOfHeaded(xs[1..], ys[1..], f);
      assert xs == [x] + xs[1..] && ys == [y] + ys[1..];
    }
  }

  /** How many pieces follow the first in the ids that the program makes: `chat-`, `ws-`, `web-`,
      `discord-` and `slack-` before one piece, `telegram-room-` before a UUID, and plain UUIDs. */
  function DashesAfter(head: string): nat {
    if head in {"chat", "ws", "web", "discord", "slack"} then 1 else if head == "telegram" then 6 else 4
  }

  predicate UuidParts(u: seq<string>) {
    |u| == 5 && (forall k | 0 <= k < 5 :: NoDash(u[k])) && |u[0]| == 8 && forall k | 0 <= k < 8 :: HexDigit(u[0][k])
  }

  predicate HexDigit(c: char) {
    '0' <= c <= '9' || 'a' <= c <= 'f'
  }

  /** An id that the program makes for a page; `parts` are its dash-free pieces. */
  predicate MadeByProgram(parts: seq<string>) {
    || (|parts| == 2 && parts[0] in {"chat", "ws", "web", "discord", "slack"} && NoDash(parts[1]))
    || (|parts| == 7 && parts[0] == "telegram" && parts[1] == "room" && UuidParts(parts[2..]))
    || UuidParts(parts)
  }

  lemma {:induction false} PiecesOfParts(parts: seq<string>)
    requires parts != [] && forall k | 0 <= k < |parts| :: NoDash(parts[k])
    ensures Pieces(JoinDash(parts)) == parts
  {
    OnePiece(parts[0]);
    if |parts| > 1 {
      PiecesOfParts(parts[1..]);
      PiecesAround(parts[0], JoinDash(parts[1..]));
    }
  }

  /** The ids that the program makes, mixed at will, are told apart by their first pieces. */
  lemma {:induction false} ProgramIdsAreHeaded(ids: seq<Id>)
    requires forall x | x in ids :: exists parts :: MadeByProgram(parts) && x == JoinDash(parts)
    ensures Headed(DashesAfter, ids)
  {
    forall x | x in ids ensures Dashes(x) == DashesAfter(Pieces(x)[0]) {
      var parts :| MadeByProgram(parts) && x == JoinDash(parts);
      assert parts != [];
      PartsHaveNoDash(parts);
      PiecesOfParts(parts);
    }
  }

  lemma {:induction false} PartsHaveNoDash(parts: seq<string>)
    requires MadeByProgram(parts)
    ensures forall k | 0 <= k < |parts| :: NoDash(parts[k])
    ensures |parts| == DashesAfter(parts[0]) + 1
  {
    if |parts| == 7 {
      forall k | 2 <= k < 7 ensures NoDash(parts[k]) {
        assert parts[2..][k - 2] == parts[k];
      }
    } else if |parts| == 5 {
      assert |parts[0]| == 8 && HexDigit(parts[0][0]);
      assert "telegram"[0] == 't';
    }
  }

  lemma {:induction false} JoinsOfEqualLength(xs: seq<Id>, ys: seq<Id>, n: nat)
    requires xs != [] && ys != [] && JoinDash(xs) == JoinDash(ys) && HaveLength(xs + ys, n)
    ensures xs == ys
    decreases |xs|
  {
    var x, y := xs[0], ys[0];
    assert x in xs + ys && y in xs + ys;
    var s := JoinDash(xs);
    assert x == s[..n] == y;
    if |xs| > 1 && |ys| > 1 {
      assert JoinDash(xs[1..]) == s[n + 1..] == JoinDash(ys[1..]);
      assert forall z | z in xs[1..] + ys[1..] :: z in xs + ys;
      JoinsOfEqualLength(xs[1..], ys[1..], n);
      assert xs == [x] + xs[1..] && ys == [y] + ys[1..];
    } else {
      assert |s| == n <==> |xs| == 1;
      assert |s| == n <==> |ys| == 1;
      assert xs == [x] && ys == [y];
    }
  }

  /** Over uniform ids a stable id identifies its key and its members. */
  lemma {:induction false} UniformIdsIdentify(h: Hashing, k: string, ms: seq<Id>, l: string, ns: seq<Id>)
    requires Ideal(h) && Sorts(h) && NoDash(k) && NoDash(l) && Uniform(ms, ns)
    ensures StableId(h, k, ms) == StableId(h, l, ns) <==> k == l && h.sorted(ms) == h.sorted(ns)
    ensures StableId(h, k, ms) == StableId(h, l, ns) ==> multiset(ms) == multiset(ns) && |ms| == |ns|
  {
    hide Dashes, Pieces, AllPieces;
    var xs, ys := h.sorted(ms), h.sorted(ns);
    StableIdsEqualIff(h, k, ms, l, ns);
    SortedHasSame(h, ms);
    SortedHasSame(h, ns);
    if AllPieces(xs) == AllPieces(ys) {
      if f :| Headed(f, ms + ns) {
        PiecesOfHeaded(xs, ys, f);
      } else {
        var n: nat :| HaveLength(ms + ns, n);
        SamePiecesOfEqualLength(xs, ys, n);
      }
    }
  }

  lemma {:induction false} SamePiecesOfEqualLength(xs: seq<Id>, ys: seq<Id>, n: nat)
    requires AllPieces(xs) == AllPieces(ys) && HaveLength(xs + ys, n)
    ensures xs == ys
  {
    if xs != [] && ys != [] {
      JoinsEqualIff(xs, ys);
      JoinsOfEqualLength(xs, ys, n);
    }
  }

  lemma {:induction false} SortedHasSame(h: Hashing, ms: seq<Id>)
    requires Sorts(h)
    ensures |h.sorted(ms)| == |ms| && multiset(h.sorted(ms)) == multiset(ms)
    ensures forall x :: x in h.sorted(ms) <==> x in ms
  {
    var xs := h.sorted(ms);
    assert |multiset(xs)| == |xs| && |multiset(ms)| == |ms|;
    forall x ensures x in xs <==> x in ms {
      assert x in multiset(xs) <==> x in multiset(ms);
    }
  }

  /** Over other ids it need not: the book of one page `z` has the id of the book of two pages
      `x` and `y`, in order, exactly when `z` is the two joined by a dash. */
  lemma {:induction false} StableIdsForgetMembers(h: Hashing, k: string, x: Id, y: Id, z: Id)
    requires Ideal(h) && Sorts(h) && Le(x, y)
    ensures BookId(h, k, [z]) == BookId(h, k, [x, y]) <==> z == x + "-" + y
  {
    SortedOne(h, z);
    SortedTwo(h, x, y);
    assert [k] + [z] == [k, z] && [k, z][1..] == [z];
    assert [k] + [x, y] == [k, x, y] && [k, x, y][1..] == [x, y] && [x, y][1..] == [y];
    assert JoinDash([k, z]) == k + "-" + z;
    var xy := x + "-" + y;
    assert JoinDash([x, y]) == xy;
    assert JoinDash([k, x, y]) == k + "-" + xy;
    assert (k + "-" + z)[|k| + 1..] == z && (k + "-" + xy)[|k| + 1..] == xy;
    assert BookId(h, k, [z])[5..] == StableId(h, k, [z]) && BookId(h, k, [x, y])[5..] == StableId(h, k, [x, y]);
  }

  lemma {:induction false} SortedOne(h: Hashing, z: Id)
    requires Sorts(h)
    ensures h.sorted([z]) == [z]
  {
    SortedHasSame(h, [z]);
    assert h.sorted([z])[0] in h.sorted([z]);
  }

  lemma {:induction false} SortedTwo(h: Hashing, x: Id, y: Id)
    requires Sorts(h) && Le(x, y)
    ensures h.sorted([x, y]) == [x, y]
  {
    var r := h.sorted([x, y]);
    SortedHasSame(h, [x, y]);
    assert r == [r[0], r[1]];
    assert r[0] in r && r[1] in r;
    assert multiset{r[0], r[1]} == multiset(r) == multiset{x, y};
    if r[0] != x {
      assert r[0] == y && multiset{x, y}[x] == multiset{r[0], r[1]}[x];
      assert r[1] == x;
      LeAntisymmetric(x, y);
    } else {
      assert multiset{x, y} - multiset{x} == multiset{y};
      assert multiset{r[0], r[1]} - multiset{r[0]} == multiset{r[1]};
      assert r[1] in multiset{y};
    }
  }

  // ---------------------------------------------------------------- edge ids

  function BelongsToId(page: Id, book: Id): Id {
    page + "-belongs_to-" + book
  }

  function SitsOnId(book: Id, shelf: Id): Id {
    book + "-sits_on-" + shelf
  }

  predicate Generated(prefix: string, id: Id) {
    prefix <= id && NoDash(id[|prefix|..])
  }

  predicate Contains(s: string, t: string) {
    exists i: nat | i <= |s| :: OccursAt(s, t, i)
  }

  /** The generator's namespace of edge ids. */
  predicate OwnedEdgeId(id: Id) {
    "book-" <= id || Contains(id, "-sits_on-shelf-") || Contains(id, "-belongs_to-book-")
  }

  lemma {:induction false} GeneratedEdgesAreOwned(source: Id, target: Id)
    ensures "book-" <= target ==> OwnedEdgeId(BelongsToId(source, target))
    ensures "shelf-" <= target ==> OwnedEdgeId(SitsOnId(source, target))
  {
    if "book-" <= target {
      var id := BelongsToId(source, target);
      assert target == "book-" + target[5..];
      assert OccursAt(id, "-belongs_to-book-", |source|);
    }
    if "shelf-" <= target {
      var id := SitsOnId(source, target);
      assert target == "shelf-" + target[6..];
      assert OccursAt(id, "-sits_on-shelf-", |source|);
    }
  }

  lemma {:induction false} BelongsToIdInjective(s: Id, t: Id, u: Id, v: Id)
    requires Generated("book-", t) && Generated("book-", v) && BelongsToId(s, t) == BelongsToId(u, v)
    ensures s == u && t == v
  {
    var x, y := s + "-belongs_to-book", u + "-belongs_to-book";
    assert BelongsToId(s, t) == x + "-" + t[5..] by { assert t == "book-" + t[5..]; }
    assert BelongsToId(u, v) == y + "-" + v[5..] by { assert v == "book-" + v[5..]; }
    TailAfterDash(x, t[5..], y, v[5..]);
    assert s == x[..|x| - 16] == y[..|y| - 16] == u;
    assert t == "book-" + t[5..] && v == "book-" + v[5..];
  }

  lemma {:induction false} SitsOnIdInjective(s: Id, t: Id, u: Id, v: Id)
    requires Generated("shelf-", t) && Generated("shelf-", v) && SitsOnId(s, t) == SitsOnId(u, v)
    ensures s == u && t == v
  {
    var x, y := s + "-sits_on-shelf", u + "-sits_on-shelf";
    assert SitsOnId(s, t) == x + "-" + t[6..] by { assert t == "shelf-" + t[6..]; }
    assert SitsOnId(u, v) == y + "-" + v[6..] by { assert v == "shelf-" + v[6..]; }
    TailAfterDash(x, t[6..], y, v[6..]);
    assert s == x[..|x| - 14] == y[..|y| - 14] == u;
    assert t == "shelf-" + t[6..] && v == "shelf-" + v[6..];
  }

  lemma {:induction false} RelationsDoNotMix(s: Id, t: Id, u: Id, v: Id)
    requires Generated("book-", t) && Generated("shelf-", v)
    ensures BelongsToId(s, t) != SitsOnId(u, v)
  {
    var x, y := s + "-belongs_to-book", u + "-sits_on-shelf";
    assert BelongsToId(s, t) == x + "-" + t[5..] by { assert t == "book-" + t[5..]; }
    assert SitsOnId(u, v) == y + "-" + v[6..] by { assert v == "shelf-" + v[6..]; }
    assert x[|x| - 1] == 'k' && y[|y| - 1] == 'f';
    if BelongsToId(s, t) == SitsOnId(u, v) {
      TailAfterDash(x, t[5..], y, v[6..]);
    }
  }
}

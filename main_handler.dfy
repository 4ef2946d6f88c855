/** The older `/add` handler of main.py. It grants one flower per multiple
  * of 500 crossed between the stitch count read back after the caterpillar
  * and the count read back after the credit, counts the flowers a user owns
  * from the bouquet string, and appends each new flower to that string
  * through `update_flowers`. The allowed chat is a constant; there is no
  * duplicate-message guard. */
module MainHandler {
  import opened Wrappers
  import Flowers
  import Text
  import Db
  import opened Command

  /** The chat the handler accepts. */
  const AllowedChatId: int := -1003158914747

  /** `new_level - prev_level` with levels of 500 stitches. */
  function LevelsGained(total: int, prev: int): int
  {
    total / Flowers.Level - prev / Flowers.Level
  }

  /** A credit of `amount` crosses at most amount // 500 + 1 multiples of
    * 500, never a negative number, and at least one exactly when
    * should_give_flower holds. */
  lemma LevelsGainedBounds(prev: int, amount: nat)
    ensures 0 <= LevelsGained(prev + amount, prev) <= amount / Flowers.Level + 1
    ensures LevelsGained(prev + amount, prev) > 0 <==> Flowers.ShouldGiveFlower(prev + amount, prev)
  {
    var q, r := prev / Flowers.Level, prev % Flowers.Level;
    var qa, ra := amount / Flowers.Level, amount % Flowers.Level;
    assert prev + amount == Flowers.Level * (q + qa) + (r + ra);
    assert 0 <= r + ra < 2 * Flowers.Level;
    assert (prev + amount) / Flowers.Level == q + qa + (if r + ra >= Flowers.Level then 1 else 0);
  }

  /** `s.count(c)` for a one-character string `c`. */
  function Occurrences(s: string, c: char): nat
  {
    if s == [] then 0 else Occurrences(s[..|s| - 1], c) + (if s[|s| - 1] == c then 1 else 0)
  }

  /** `sum(s.count(f) for f in fs)`. */
  function SumCounts(s: string, fs: seq<char>): nat
  {
    if fs == [] then 0 else Occurrences(s, fs[0]) + SumCounts(s, fs[1..])
  }

  /** The owned-flower count main.py derives from a bouquet string. */
  function Tally(s: string): nat
  {
    SumCounts(s, Flowers.All)
  }

  /** Reference definition: how many characters of `s` are flowers. */
  function FlowerChars(s: string): nat
  {
    if s == [] then 0 else FlowerChars(s[..|s| - 1]) + (if s[|s| - 1] in Flowers.All then 1 else 0)
  }

  lemma {:induction false} SumCountsOfEmpty(fs: seq<char>)
    ensures SumCounts([], fs) == 0
  {
    if fs != [] {
      SumCountsOfEmpty(fs[1..]);
    }
  }

  /** One more character adds one to the sum of counts over distinct
    * flowers exactly when it is one of them. */
  lemma {:induction false} SumCountsStep(p: string, c: char, fs: seq<char>)
    requires Flowers.Distinct(fs)
    ensures SumCounts(p + [c], fs) == SumCounts(p, fs) + (if c in fs then 1 else 0)
  {
    assert (p + [c])[..|p|] == p;
    if fs != [] {
      var rest := fs[1..];
      assert Flowers.Distinct(rest) by {
        forall i, j | 0 <= i < j < |rest| ensures rest[i] != rest[j] {
          assert rest[i] == fs[i + 1] && rest[j] == fs[j + 1];
        }
      }
      SumCountsStep(p, c, rest);
      assert c in fs <==> c == fs[0] || c in rest;
      if c == fs[0] {
        assert c !in rest by {
          forall j | 0 <= j < |rest| ensures rest[j] != c {
            assert rest[j] == fs[j + 1];
          }
        }
      }
    }
  }

  /** Summing `str.count` over the eight flowers counts every flower
    * character of the bouquet once, because no flower is listed twice. */
  lemma {:induction false} TallyIsFlowerChars(s: string)
    ensures Tally(s) == FlowerChars(s)
  {
    if s == [] {
      SumCountsOfEmpty(Flowers.All);
    } else {
      var p := s[..|s| - 1];
      assert s == p + [s[|s| - 1]];
      Flowers.PoolsShape();
      SumCountsStep(p, s[|s| - 1], Flowers.All);
      TallyIsFlowerChars(p);
    }
  }

  /** The in-memory suffix main.py builds: `" " + f` for each granted flower. */
  function Spaced(fs: seq<char>): (r: string)
    ensures |r| == 2 * |fs|
    ensures fs != [] ==> r[|r| - 1] == fs[|fs| - 1]
  {
    if fs == [] then [] else Spaced(fs[..|fs| - 1]) + [' ', fs[|fs| - 1]]
  }

  lemma FlowerIsNotSpace(f: char)
    requires f in Flowers.All
    ensures !Text.IsSpace(f)
  {
    FlowersAreNotSpace();
  }

  lemma FlowersAreNotSpace()
    ensures forall f :: f in Flowers.All ==> !Text.IsSpace(f)
    ensures ' ' !in Flowers.All
  {
  }

  /** Sequence and map identities, kept as lemmas so that each is proved in
    * a small context of its own rather than inside the larger proofs. */
  lemma Regroup(a: string, b: string, c: string)
    ensures a + (b + c) == (a + b) + c
  {
  }

  lemma Pair(a: string, c: char, d: char)
    ensures a + [c] + [d] == a + [c, d]
  {
  }

  /** The bouquet main.py reports, the in-memory string stripped, is the
    * string `update_flowers` has stored. */
  lemma {:induction false} PersistedMatchesReported(s: string, fs: seq<char>)
    requires Text.NoOuterSpace(s)
    requires forall i :: 0 <= i < |fs| ==> !Text.IsSpace(fs[i])
    ensures Db.AppendAll(s, fs) == Text.Strip(s + Spaced(fs))
  {
    if fs == [] {
      assert s + Spaced(fs) == s;
      Text.StripKeeps(s);
    } else {
      var p := fs[..|fs| - 1];
      var f := fs[|fs| - 1];
      assert fs == p + [f];
      PersistedMatchesReported(s, p);
      var joined := Db.AppendAll(s, p);
      calc {
        Db.AppendAll(s, fs);
        { Db.AppendAllStep(s, p, f); }
        Db.JoinFlower(joined, [f]);
        { Pair(joined, ' ', f); }
        Text.Strip(joined + [' ', f]);
        Text.Strip(Text.Strip(s + Spaced(p)) + [' ', f]);
        { SpacedStep(s, p, f); }
        Text.Strip(s + Spaced(fs));
      }
    }
  }

  /** One grant: stripping the in-memory string after appending `" " + f`
    * is the same as appending to the stripped string. */
  lemma SpacedStep(s: string, p: seq<char>, f: char)
    requires Text.NoOuterSpace(s) && !Text.IsSpace(f)
    requires p == [] || !Text.IsSpace(p[|p| - 1])
    ensures Text.Strip(s + Spaced(p + [f])) == Text.Strip(Text.Strip(s + Spaced(p)) + [' ', f])
  {
    SpacedEndsLikeList(s, p);
    Text.StripAppendChar(s + Spaced(p), f);
    SpacedSnoc(p, f);
    Regroup(s, Spaced(p), [' ', f]);
  }

  lemma SpacedEndsLikeList(s: string, p: seq<char>)
    requires Text.NoOuterSpace(s)
    requires p == [] || !Text.IsSpace(p[|p| - 1])
    ensures var b := s + Spaced(p); b == [] || !Text.IsSpace(b[|b| - 1])
  {
    var sp := Spaced(p);
    var b := s + sp;
    if p == [] {
      assert b == s;
    } else {
      assert b[|b| - 1] == sp[|sp| - 1] == p[|p| - 1];
    }
  }

  lemma SpacedSnoc(p: seq<char>, f: char)
    ensures Spaced(p + [f]) == Spaced(p) + [' ', f]
  {
    assert (p + [f])[..|p|] == p;
  }

  lemma FlowerCharsSpaceThen(s: string, f: char)
    requires f in Flowers.All
    ensures FlowerChars(s + [' ', f]) == FlowerChars(s) + 1
  {
    FlowersAreNotSpace();
    assert (s + [' ', f])[..|s| + 1] == s + [' '];
    assert (s + [' '])[..|s|] == s;
  }

  /** Every granted flower appended to a stored bouquet raises the flower
    * count read from the string by exactly one. */
  lemma {:induction false} AppendAllCounts(s: string, fs: seq<char>)
    requires Text.NoOuterSpace(s)
    requires forall i :: 0 <= i < |fs| ==> fs[i] in Flowers.All
    ensures Tally(Db.AppendAll(s, fs)) == Tally(s) + |fs|
  {
    TallyIsFlowerChars(s);
    TallyIsFlowerChars(Db.AppendAll(s, fs));
    if fs != [] {
      var p := fs[..|fs| - 1];
      var f := fs[|fs| - 1];
      AppendAllCounts(s, p);
      var cur := Db.AppendAll(s, p);
      TallyIsFlowerChars(cur);
      FlowersAreNotSpace();
      Db.JoinFlowerAppends(cur, f);
      if cur == [] {
        assert [f][..0] == [];
      } else {
        FlowerCharsSpaceThen(cur, f);
      }
    }
  }

  /** The flowers a credit grants: one draw per level gained, the k-th with
    * the bouquet's flower count plus k. */
  function Granted(row: Db.Row, amount: nat, caterpillar: bool, picks: nat -> nat): seq<char>
  {
    var prev := AfterCaterpillar(row.stitches, caterpillar);
    Flowers.Draws(Tally(row.flowers), LevelsGained(prev + amount, prev), picks)
  }

  /** The registered row after the credit: stitches credited, granted
    * flowers appended to the bouquet string. */
  function CreditRow(row: Db.Row, amount: nat, caterpillar: bool, picks: nat -> nat): Db.Row
  {
    row.(stitches := AfterCaterpillar(row.stitches, caterpillar) + amount,
         flowers := Db.AppendAll(row.flowers, Granted(row, amount, caterpillar, picks)))
  }

  /** The `users` table after a credit. */
  function CreditUsers(users: map<int, Db.Row>, m: Message, amount: nat, caterpillar: bool, picks: nat -> nat): map<int, Db.Row>
  {
    users[m.userId := CreditRow(Db.Registered(users, m.userId, DisplayName(m)), amount, caterpillar, picks)]
  }

  /** The reply to a credit of the registered row `row`: the bouquet is the
    * in-memory string, stripped. */
  function ReplyFor(row: Db.Row, name: string, amount: nat, caterpillar: bool, granted: seq<char>): Reply
  {
    Added(name, caterpillar, |granted|, AfterCaterpillar(row.stitches, caterpillar) + amount,
          Text.Strip(row.flowers + Spaced(granted)))
  }

  /** The reply to a credit. */
  function CreditReply(users: map<int, Db.Row>, m: Message, amount: nat, caterpillar: bool, picks: nat -> nat): Reply
  {
    ReplyFor(Db.Registered(users, m.userId, DisplayName(m)), DisplayName(m), amount, caterpillar,
             Granted(Db.Registered(users, m.userId, DisplayName(m)), amount, caterpillar, picks))
  }

  /** Every granted flower is one of the eight flowers, so none of them is
    * whitespace. */
  lemma GrantedAreFlowers(row: Db.Row, amount: nat, caterpillar: bool, picks: nat -> nat)
    ensures forall i :: 0 <= i < |Granted(row, amount, caterpillar, picks)| ==>
      Granted(row, amount, caterpillar, picks)[i] in Flowers.All && !Text.IsSpace(Granted(row, amount, caterpillar, picks)[i])
  {
    var prev := AfterCaterpillar(row.stitches, caterpillar);
    var g := Granted(row, amount, caterpillar, picks);
    Flowers.DrawsRarity(Tally(row.flowers), LevelsGained(prev + amount, prev), picks);
    forall i | 0 <= i < |g|
      ensures g[i] in Flowers.All && !Text.IsSpace(g[i])
    {
      FlowerIsNotSpace(g[i]);
    }
  }

  /** What main.py reports is what the table holds: the stitch count and
    * the bouquet of the sender's row. */
  lemma CreditReportsStored(users: map<int, Db.Row>, m: Message, amount: nat, caterpillar: bool, picks: nat -> nat)
    requires Db.WellFormed(users)
    ensures m.userId in CreditUsers(users, m, amount, caterpillar, picks)
    ensures CreditReply(users, m, amount, caterpillar, picks).stitches
      == CreditUsers(users, m, amount, caterpillar, picks)[m.userId].stitches
    ensures CreditReply(users, m, amount, caterpillar, picks).bouquet
      == CreditUsers(users, m, amount, caterpillar, picks)[m.userId].flowers
  {
    var row := Db.Registered(users, m.userId, DisplayName(m));
    assert Text.NoOuterSpace(row.flowers);
    CreditReplyOfRow(users, m, amount, caterpillar, picks, row);
    ReportedBouquet(row, amount, caterpillar, picks);
  }

  /** The in-memory bouquet, stripped, is the bouquet `update_flowers` stored. */
  lemma ReportedBouquet(row: Db.Row, amount: nat, caterpillar: bool, picks: nat -> nat)
    requires Text.NoOuterSpace(row.flowers)
    ensures Text.Strip(row.flowers + Spaced(Granted(row, amount, caterpillar, picks)))
      == CreditRow(row, amount, caterpillar, picks).flowers
  {
    GrantedAreFlowers(row, amount, caterpillar, picks);
    PersistedMatchesReported(row.flowers, Granted(row, amount, caterpillar, picks));
  }

  /** The stored bouquet holds exactly `granted` more flowers than before,
    * counted the way main.py counts them. */
  lemma CreditCountsGranted(users: map<int, Db.Row>, m: Message, amount: nat, caterpillar: bool, picks: nat -> nat)
    requires Db.WellFormed(users)
    ensures m.userId in CreditUsers(users, m, amount, caterpillar, picks)
    ensures Tally(CreditUsers(users, m, amount, caterpillar, picks)[m.userId].flowers)
      == Tally(Db.Registered(users, m.userId, DisplayName(m)).flowers) + CreditReply(users, m, amount, caterpillar, picks).granted
  {
    var row := Db.Registered(users, m.userId, DisplayName(m));
    assert Text.NoOuterSpace(row.flowers);
    CreditReplyOfRow(users, m, amount, caterpillar, picks, row);
    GrantedAreFlowers(row, amount, caterpillar, picks);
    AppendAllCounts(row.flowers, Granted(row, amount, caterpillar, picks));
  }

  /** main.py grants `new_level - prev_level` flowers when that is positive
    * and none otherwise, with `prev` the count after the caterpillar: at
    * least one exactly when should_give_flower holds for the two counts,
    * and never more than amount // 500 + 1. */
  lemma GrantedPerLevel(row: Db.Row, amount: nat, caterpillar: bool, picks: nat -> nat)
    ensures var prev := AfterCaterpillar(row.stitches, caterpillar);
      |Granted(row, amount, caterpillar, picks)| == Max(LevelsGained(prev + amount, prev), 0)
    ensures var prev := AfterCaterpillar(row.stitches, caterpillar);
      |Granted(row, amount, caterpillar, picks)| > 0 <==> Flowers.ShouldGiveFlower(prev + amount, prev)
    ensures |Granted(row, amount, caterpillar, picks)| <= amount / Flowers.Level + 1
  {
    var prev := AfterCaterpillar(row.stitches, caterpillar);
    LevelsGainedBounds(prev, amount);
  }

  /** The k-th flower granted is get_random_flower of the bouquet's flower
    * count plus k, so it is a base flower while that sum is below ten. */
  lemma GrantedRarity(row: Db.Row, amount: nat, caterpillar: bool, picks: nat -> nat)
    ensures var g := Granted(row, amount, caterpillar, picks);
      forall k :: 0 <= k < |g| ==>
        && g[k] == Flowers.RandomFlower(Tally(row.flowers) + k, picks(k))
        && (Tally(row.flowers) + k < Flowers.RarityGate ==> g[k] in Flowers.Base)
  {
    var prev := AfterCaterpillar(row.stitches, caterpillar);
    var n := LevelsGained(prev + amount, prev);
    assert Granted(row, amount, caterpillar, picks) == Flowers.Draws(Tally(row.flowers), n, picks);
    Flowers.DrawsChosen(Tally(row.flowers), n, picks);
    Flowers.DrawsRarity(Tally(row.flowers), n, picks);
  }

  /** A credit changes the sender's row and nobody else's. */
  lemma CreditTouchesOnlySender(users: map<int, Db.Row>, m: Message, amount: nat, caterpillar: bool, picks: nat -> nat)
    ensures forall id :: id in users && id != m.userId ==>
      id in CreditUsers(users, m, amount, caterpillar, picks) && CreditUsers(users, m, amount, caterpillar, picks)[id] == users[id]
  {
  }

  /** A credit keeps the table well formed. */
  lemma CreditKeepsWellFormed(users: map<int, Db.Row>, m: Message, amount: nat, caterpillar: bool, picks: nat -> nat)
    requires Db.WellFormed(users)
    ensures Db.WellFormed(CreditUsers(users, m, amount, caterpillar, picks))
  {
    var row := Db.Registered(users, m.userId, DisplayName(m));
    var granted := Granted(row, amount, caterpillar, picks);
    assert Text.NoOuterSpace(row.flowers);
    assert Text.NoOuterSpace(Db.AppendAll(row.flowers, granted));
  }

  /** A user row with the flowers `drawn` appended to its stored string. */
  function Stored(row: Db.Row, drawn: seq<char>): (r: Db.Row)
    ensures r.stitches == row.stitches
  {
    row.(flowers := Db.AppendAll(row.flowers, drawn))
  }

  /** One turn of the grant loop keeps the in-memory bouquet in step with
    * the flowers drawn so far. */
  lemma GrantStep(bouquet: string, start: int, k: nat, picks: nat -> nat, flower: char)
    requires flower == Flowers.RandomFlower(start + k, picks(k))
    ensures Flowers.Draws(start, k + 1, picks) == Flowers.Draws(start, k, picks) + [flower]
    ensures bouquet + Spaced(Flowers.Draws(start, k, picks)) + [' ', flower]
         == bouquet + Spaced(Flowers.Draws(start, k + 1, picks))
  {
    var drawn := Flowers.Draws(start, k, picks);
    Flowers.DrawsStep(start, k, picks);
    SpacedSnoc(drawn, flower);
    Regroup(bouquet, Spaced(drawn), [' ', flower]);
  }

  /** One `update_flowers` call on a row holding the flowers drawn so far
    * leaves the row holding them and the new flower. */
  lemma StoredStep(row: Db.Row, drawn: seq<char>, f: char)
    ensures Stored(row, drawn).(flowers := Db.JoinFlower(Stored(row, drawn).flowers, [f])) == Stored(row, drawn + [f])
  {
    Db.AppendAllStep(row.flowers, drawn, f);
  }

  lemma Overwrite(users: map<int, Db.Row>, id: int, a: Db.Row, b: Db.Row)
    ensures users[id := a][id := b] == users[id := b]
  {
  }

  /** The reply to a credit is the reply for the registered row. */
  lemma CreditReplyOfRow(users: map<int, Db.Row>, m: Message, amount: nat, caterpillar: bool, picks: nat -> nat, row: Db.Row)
    requires row == Db.Registered(users, m.userId, DisplayName(m))
    ensures CreditReply(users, m, amount, caterpillar, picks)
         == ReplyFor(row, DisplayName(m), amount, caterpillar, Granted(row, amount, caterpillar, picks))
  {
  }

  /** The reply the handler builds from what it counted, credited and showed. */
  lemma ReplyForShown(row: Db.Row, name: string, amount: nat, caterpillar: bool, granted: seq<char>,
                      given: nat, total: int, shown: string)
    requires given == |granted|
    requires total == AfterCaterpillar(row.stitches, caterpillar) + amount
    requires shown == row.flowers + Spaced(granted)
    ensures Added(name, caterpillar, given, total, Text.Strip(shown)) == ReplyFor(row, name, amount, caterpillar, granted)
  {
    var bouquet := Text.Strip(shown);
    assert bouquet == Text.Strip(row.flowers + Spaced(granted));
  }

  /** The table the handler leaves, once it has credited the registered row
    * and stored the granted flowers, is the specified table. */
  lemma CreditOutcomeUsers(users: map<int, Db.Row>, m: Message, amount: nat, caterpillar: bool, picks: nat -> nat,
                           row: Db.Row, total: int)
    requires row == Db.Registered(users, m.userId, DisplayName(m))
    requires total == AfterCaterpillar(row.stitches, caterpillar) + amount
    ensures users[m.userId := Stored(row.(stitches := total), Granted(row, amount, caterpillar, picks))]
         == CreditUsers(users, m, amount, caterpillar, picks)
  {
    assert Stored(row.(stitches := total), Granted(row, amount, caterpillar, picks)) == CreditRow(row, amount, caterpillar, picks);
  }

  /** The grant step of the handler: when levels were gained, count the
    * owned flowers, then one `update_flowers` per level, the in-memory
    * bouquet and the running count kept in step. */
  method GrantFlowers(store: Db.Store, id: int, bouquet: string, flowersToGive: int, picks: nat -> nat)
      returns (given: nat, updated: string)
    requires store.Valid() && id in store.users
    modifies store`users
    ensures store.Valid()
    ensures given == |Flowers.Draws(Tally(bouquet), flowersToGive, picks)|
    ensures updated == bouquet + Spaced(Flowers.Draws(Tally(bouquet), flowersToGive, picks))
    ensures store.users == old(store.users)[id := Stored(old(store.users)[id], Flowers.Draws(Tally(bouquet), flowersToGive, picks))]
  {
    given := 0;
    updated := bouquet;
    ghost var users := store.users;
    ghost var row := store.users[id];
    ghost var drawn: seq<char> := [];
    assert store.users == users[id := Stored(row, drawn)];
    assert updated == bouquet + Spaced(drawn);
    if flowersToGive > 0 {
      var currentCount := Tally(bouquet);
      ghost var start := currentCount;
      while given < flowersToGive
        invariant given <= flowersToGive
        invariant currentCount == start + given
        invariant drawn == Flowers.Draws(start, given, picks)
        invariant updated == bouquet + Spaced(drawn)
        invariant store.users == users[id := Stored(row, drawn)]
        invariant store.Valid()
      {
        var flower := Flowers.RandomFlower(currentCount, picks(given));
        GrantStep(bouquet, start, given, picks, flower);
        StoredStep(row, drawn, flower);
        Overwrite(users, id, Stored(row, drawn), Stored(row, drawn + [flower]));
        store.UpdateFlowers(id, [flower]);
        updated := updated + [' ', flower];
        drawn := drawn + [flower];
        currentCount := currentCount + 1;
        given := given + 1;
      }
    }
  }

  /** Register, roll the caterpillar, read back, credit, read back: the
    * stitches part of the handler. */
  method CreditStitches(store: Db.Store, id: int, name: string, amount: nat, caterpillar: bool)
      returns (bouquet: string, prevStitches: int, totalStitches: int)
    requires store.Valid()
    modifies store`users
    ensures store.Valid()
    ensures bouquet == Db.Registered(old(store.users), id, name).flowers
    ensures prevStitches == AfterCaterpillar(Db.Registered(old(store.users), id, name).stitches, caterpillar)
    ensures totalStitches == prevStitches + amount
    ensures store.users == old(store.users)[id := Db.Registered(old(store.users), id, name).(stitches := totalStitches)]
  {
    ghost var base := store.users;
    ghost var row := Db.Registered(base, id, name);
    store.AddUser(id, name);
    assert store.users == base[id := row];
    var prevData := store.GetUser(id);
    bouquet := prevData.value.flowers;
    ghost var after := AfterCaterpillar(row.stitches, caterpillar);
    if caterpillar {
      store.SubtractStitches(id, CaterpillarPenalty);
      Overwrite(base, id, row, row.(stitches := after));
    }
    assert store.users == base[id := row.(stitches := after)];
    prevStitches := store.GetUser(id).value.stitches;
    store.UpdateStitches(id, amount);
    Overwrite(base, id, row.(stitches := after), row.(stitches := after + amount));
    totalStitches := store.GetUser(id).value.stitches;
  }

  /** The handler after the argument check: the stitches part, then one
    * flower per level gained. */
  method Credit(store: Db.Store, m: Message, amount: nat, caterpillar: bool, picks: nat -> nat) returns (reply: Reply)
    requires store.Valid()
    modifies store`users
    ensures store.Valid()
    ensures store.users == CreditUsers(old(store.users), m, amount, caterpillar, picks)
    ensures reply == CreditReply(old(store.users), m, amount, caterpillar, picks)
  {
    var id := m.userId;
    var name := DisplayName(m);
    ghost var base := store.users;
    ghost var row := Db.Registered(base, id, name);
    var updatedBouquet, prevStitches, totalStitches := CreditStitches(store, id, name, amount, caterpillar);
    ghost var credited := row.(stitches := AfterCaterpillar(row.stitches, caterpillar) + amount);
    assert store.users == base[id := credited];
    var flowersToGive := totalStitches / Flowers.Level - prevStitches / Flowers.Level;
    ghost var granted := Granted(row, amount, caterpillar, picks);
    assert granted == Flowers.Draws(Tally(updatedBouquet), flowersToGive, picks);
    var given, shown := GrantFlowers(store, id, updatedBouquet, flowersToGive, picks);
    Overwrite(base, id, credited, Stored(credited, granted));
    CreditOutcomeUsers(base, m, amount, caterpillar, picks, row, totalStitches);
    CreditReplyOfRow(base, m, amount, caterpillar, picks, row);
    ReplyForShown(row, name, amount, caterpillar, granted, given, totalStitches, shown);
    reply := Added(name, caterpillar, given, totalStitches, Text.Strip(shown));
  }

  /** The handler: the chat check, the argument check, then `Credit`. */
  method AddStitches(store: Db.Store, m: Message, caterpillar: bool, picks: nat -> nat) returns (reply: Reply)
    requires store.Valid()
    modifies store`users
    ensures store.Valid()
    ensures m.chatId != AllowedChatId ==> reply == WrongChat && unchanged(store)
    ensures m.chatId == AllowedChatId && ParseAmount(m.text).Failure? ==>
      reply == Rejected(ParseAmount(m.text).error) && unchanged(store)
    ensures m.chatId == AllowedChatId && ParseAmount(m.text).Success? ==>
      && store.users == CreditUsers(old(store.users), m, ParseAmount(m.text).value, caterpillar, picks)
      && reply == CreditReply(old(store.users), m, ParseAmount(m.text).value, caterpillar, picks)
  {
    if m.chatId != AllowedChatId {
      return WrongChat;
    }
    var parsed := ParseAmount(m.text);
    if parsed.Failure? {
      return Rejected(parsed.error);
    }
    reply := Credit(store, m, parsed.value, caterpillar, picks);
  }
}

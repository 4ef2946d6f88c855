/** The `/add` handler of handlers/add.py. Flowers are granted by a
  * high-water mark: the user's flower list is topped up to
  * total // threshold entries, so a later drop in stitches (a caterpillar)
  * never takes a flower back and never makes one be granted twice. The
  * duplicate-message guard of handlers/utils.py runs before the argument is
  * parsed. `has_caterpillar()` is the input `caterpillar`, the random choices
  * are the oracle `picks`, and the configured chat and threshold are
  * parameters. */
module AddHandler {
  import opened Wrappers
  import Flowers
  import Text
  import Db
  import MessageLog
  import opened Command

  /** The user's flower list after the grant step: `owned` extended by the
    * draws that bring it to total // threshold entries. */
  function TopUp(owned: seq<char>, total: int, threshold: int, picks: nat -> nat): (r: seq<char>)
    requires threshold > 0
    ensures |r| == Max(|owned|, total / threshold)
    ensures r[..|owned|] == owned
    ensures total / threshold <= |owned| ==> r == owned
  {
    owned + Flowers.Draws(|owned|, total / threshold - |owned|, picks)
  }

  /** Each new entry of the list is get_random_flower of the number of
    * flowers owned just before it, so the first ten flowers a user ever
    * gets are base flowers. */
  lemma TopUpRarity(owned: seq<char>, total: int, threshold: int, picks: nat -> nat)
    requires threshold > 0
    ensures var r := TopUp(owned, total, threshold, picks);
      forall k :: |owned| <= k < |r| ==>
        && r[k] == Flowers.RandomFlower(k, picks(k - |owned|))
        && r[k] in Flowers.All
        && (k < Flowers.RarityGate ==> r[k] in Flowers.Base)
  {
    var n := total / threshold - |owned|;
    var drawn := Flowers.Draws(|owned|, n, picks);
    var r := owned + drawn;
    assert r == TopUp(owned, total, threshold, picks);
    forall k | |owned| <= k < |r|
      ensures r[k] == Flowers.RandomFlower(k, picks(k - |owned|))
    {
      assert r[k] == drawn[k - |owned|];
      Flowers.DrawAt(|owned|, n, picks, k - |owned|);
    }
  }

  /** Topping up twice to the same total grants nothing the second time. */
  lemma TopUpIdempotent(owned: seq<char>, total: int, threshold: int, picks: nat -> nat, later: nat -> nat)
    requires threshold > 0
    ensures TopUp(TopUp(owned, total, threshold, picks), total, threshold, later) == TopUp(owned, total, threshold, picks)
  {
    var r := TopUp(owned, total, threshold, picks);
    assert Flowers.Draws(|r|, total / threshold - |r|, later) == [];
  }

  /** The stitch count the handler stores and reports: the registered row's
    * count after the caterpillar roll, plus the amount. */
  function Credited(users: map<int, Db.Row>, m: Message, amount: nat, caterpillar: bool): int
  {
    AfterCaterpillar(Db.Registered(users, m.userId, DisplayName(m)).stitches, caterpillar) + amount
  }

  /** The credited count is at least the amount credited, so it is
    * positive whenever the argument check let the amount through. */
  lemma CreditedAtLeastAmount(users: map<int, Db.Row>, m: Message, amount: nat, caterpillar: bool)
    requires Db.WellFormed(users)
    ensures Credited(users, m, amount, caterpillar) >= amount
  {
    var row := Db.Registered(users, m.userId, DisplayName(m));
    assert row.stitches >= 0;
  }

  /** The `users` table after a credit: the sender's row (registered if new)
    * holds the credited count; no other row changes. */
  function CreditUsers(users: map<int, Db.Row>, m: Message, amount: nat, caterpillar: bool): map<int, Db.Row>
  {
    users[m.userId := Db.Registered(users, m.userId, DisplayName(m)).(stitches := Credited(users, m, amount, caterpillar))]
  }

  /** The flower lists after the grant step for `id` with the given total:
    * untouched when nothing is granted, otherwise `id`'s list topped up. */
  function CreditLists(lists: map<int, seq<char>>, id: int, total: int, threshold: int, picks: nat -> nat): map<int, seq<char>>
    requires threshold > 0
  {
    var owned := Db.ListOf(lists, id);
    if total / threshold <= |owned| then lists else lists[id := TopUp(owned, total, threshold, picks)]
  }

  /** The reply to a credit: display name, caterpillar, flowers granted, the
    * credited count and the stripped, space-joined flower list. */
  function CreditReply(users: map<int, Db.Row>, lists: map<int, seq<char>>, m: Message, amount: nat,
                       caterpillar: bool, threshold: int, picks: nat -> nat): Reply
    requires threshold > 0
  {
    var total := Credited(users, m, amount, caterpillar);
    var owned := Db.ListOf(lists, m.userId);
    var r := TopUp(owned, total, threshold, picks);
    Added(DisplayName(m), caterpillar, |r| - |owned|, total, Text.Strip(Text.JoinChars(r)))
  }

  /** A credit keeps the table well formed (no negative stitch counts). */
  lemma CreditKeepsWellFormed(users: map<int, Db.Row>, m: Message, amount: nat, caterpillar: bool)
    requires Db.WellFormed(users)
    ensures Db.WellFormed(CreditUsers(users, m, amount, caterpillar))
  {
    var row := Db.Registered(users, m.userId, DisplayName(m));
    assert row.stitches >= 0 && row.caterpillars >= 0 && Text.NoOuterSpace(row.flowers);
  }

  /** What the reply reports is what the tables now hold: the stitch count
    * of the sender's row and, joined by spaces, the sender's flower list;
    * the number of granted flowers is what the list grew by. */
  lemma CreditReportsStored(users: map<int, Db.Row>, lists: map<int, seq<char>>, m: Message, amount: nat,
                            caterpillar: bool, threshold: int, picks: nat -> nat)
    requires threshold > 0
    ensures m.userId in CreditUsers(users, m, amount, caterpillar)
    ensures CreditReply(users, lists, m, amount, caterpillar, threshold, picks).stitches
      == CreditUsers(users, m, amount, caterpillar)[m.userId].stitches
    ensures CreditReply(users, lists, m, amount, caterpillar, threshold, picks).granted
      == |Db.ListOf(CreditLists(lists, m.userId, Credited(users, m, amount, caterpillar), threshold, picks), m.userId)|
       - |Db.ListOf(lists, m.userId)|
    ensures CreditReply(users, lists, m, amount, caterpillar, threshold, picks).bouquet
      == Text.Strip(Text.JoinChars(Db.ListOf(CreditLists(lists, m.userId, Credited(users, m, amount, caterpillar), threshold, picks), m.userId)))
  {
    var total := Credited(users, m, amount, caterpillar);
    var owned := Db.ListOf(lists, m.userId);
    var r := TopUp(owned, total, threshold, picks);
    assert Db.ListOf(CreditLists(lists, m.userId, total, threshold, picks), m.userId) == r;
  }

  /** A credit changes the sender's row and flower list and nobody else's. */
  lemma CreditTouchesOnlySender(users: map<int, Db.Row>, lists: map<int, seq<char>>, m: Message, amount: nat,
                                caterpillar: bool, threshold: int, picks: nat -> nat)
    requires threshold > 0
    ensures forall id :: id != m.userId ==>
      Db.ListOf(CreditLists(lists, m.userId, Credited(users, m, amount, caterpillar), threshold, picks), id) == Db.ListOf(lists, id)
    ensures forall id :: id in users && id != m.userId ==>
      id in CreditUsers(users, m, amount, caterpillar) && CreditUsers(users, m, amount, caterpillar)[id] == users[id]
  {
  }

  /** The high-water mark: after a credit the sender owns exactly
    * max(owned, total // threshold) flowers, so the count never falls and a
    * total that rises past the next multiple of the threshold grants one
    * flower per multiple not yet paid out. */
  lemma CreditHighWater(lists: map<int, seq<char>>, id: int, total: int, threshold: int, picks: nat -> nat)
    requires threshold > 0
    ensures |Db.ListOf(CreditLists(lists, id, total, threshold, picks), id)| == Max(|Db.ListOf(lists, id)|, total / threshold)
    ensures Db.ListOf(CreditLists(lists, id, total, threshold, picks), id)[..|Db.ListOf(lists, id)|] == Db.ListOf(lists, id)
  {
  }

  /** A caterpillar can never lead to a second payment for the same
    * multiple: a user whose list already pays for the pre-penalty total,
    * hit by a caterpillar and credited no more than the penalty, is granted
    * nothing. */
  lemma CaterpillarGrantsNothingTwice(users: map<int, Db.Row>, lists: map<int, seq<char>>, m: Message, amount: nat,
                                     threshold: int, picks: nat -> nat)
    requires threshold > 0 && amount <= CaterpillarPenalty
    requires m.userId in users && users[m.userId].stitches >= CaterpillarPenalty
    requires users[m.userId].stitches / threshold <= |Db.ListOf(lists, m.userId)|
    ensures CreditReply(users, lists, m, amount, true, threshold, picks).granted == 0
    ensures CreditLists(lists, m.userId, Credited(users, m, amount, true), threshold, picks) == lists
  {
    var before := users[m.userId].stitches;
    var total := Credited(users, m, amount, true);
    assert total <= before;
    Flowers.DivMonotone(total, before, threshold);
    var owned := Db.ListOf(lists, m.userId);
    assert CreditLists(lists, m.userId, total, threshold, picks) == lists by {
      assert total / threshold <= |owned|;
    }
  }

  /** The grant loop: draws and appends one flower per missing entry, the
    * k-th draw seeing the count of flowers owned at that moment. */
  method GrantFlowers(store: Db.Store, id: int, total: int, threshold: int, picks: nat -> nat)
      returns (given: nat, shown: seq<char>)
    requires threshold > 0
    modifies store`flowerLists
    ensures store.flowerLists == CreditLists(old(store.flowerLists), id, total, threshold, picks)
    ensures shown == store.GetUserFlowersList(id)
    ensures given == |shown| - |old(store.GetUserFlowersList(id))|
  {
    ghost var owned := store.GetUserFlowersList(id);
    ghost var lists := store.flowerLists;
    var currentFlowers := store.GetUserFlowersList(id);
    var currentCount := |currentFlowers|;
    var toGive := total / threshold - currentCount;
    given := 0;
    ghost var drawn: seq<char> := [];
    while given < toGive
      invariant if toGive > 0 then given <= toGive else given == 0
      invariant currentCount == |owned| + given
      invariant drawn == Flowers.Draws(|owned|, given, picks)
      invariant currentFlowers == owned + drawn
      invariant given == 0 ==> store.flowerLists == lists
      invariant given > 0 ==> store.flowerLists == lists[id := currentFlowers]
    {
      var flower := Flowers.RandomFlower(currentCount, picks(given));
      Flowers.DrawsStep(|owned|, given, picks);
      store.AddFlowerToUser(id, flower);
      assert currentFlowers + [flower] == owned + (drawn + [flower]);
      currentFlowers := currentFlowers + [flower];
      drawn := drawn + [flower];
      currentCount := currentCount + 1;
      given := given + 1;
    }
    assert drawn == Flowers.Draws(|owned|, toGive, picks);
    shown := store.GetUserFlowersList(id);
  }

  /** The part of the handler after the argument check: register the user,
    * apply the caterpillar and the stitches, top up the flower list, and
    * build the reply. The `user_data is None` branch of the source cannot
    * be taken, because `add_user` has just made sure the row exists. */
  method Credit(store: Db.Store, threshold: int, m: Message, amount: nat, caterpillar: bool, picks: nat -> nat)
      returns (reply: Reply)
    requires threshold > 0
    requires store.Valid()
    modifies store
    ensures store.Valid()
    ensures store.users == CreditUsers(old(store.users), m, amount, caterpillar)
    ensures store.flowerLists ==
      CreditLists(old(store.flowerLists), m.userId, Credited(old(store.users), m, amount, caterpillar), threshold, picks)
    ensures reply == CreditReply(old(store.users), old(store.flowerLists), m, amount, caterpillar, threshold, picks)
  {
    var id := m.userId;
    var name := DisplayName(m);
    ghost var base := store.users;
    ghost var lists := store.flowerLists;
    ghost var row := Db.Registered(base, id, name);
    store.AddUser(id, name);
    assert store.users == base[id := row];
    var userData := store.GetUser(id);
    var prevStitches := userData.value.stitches;
    if caterpillar {
      store.SubtractStitches(id, CaterpillarPenalty);
      prevStitches := Max(0, prevStitches - CaterpillarPenalty);
    }
    assert store.users == base[id := row.(stitches := prevStitches)];
    store.UpdateStitches(id, amount);
    var totalStitches := prevStitches + amount;
    assert totalStitches == Credited(base, m, amount, caterpillar);
    assert store.users == CreditUsers(base, m, amount, caterpillar);
    assert store.flowerLists == lists;
    var given, shown := GrantFlowers(store, id, totalStitches, threshold, picks);
    CreditReportsStored(base, lists, m, amount, caterpillar, threshold, picks);
    ghost var expected := CreditReply(base, lists, m, amount, caterpillar, threshold, picks);
    assert shown == Db.ListOf(CreditLists(lists, id, totalStitches, threshold, picks), id);
    assert given == expected.granted;
    assert Text.Strip(Text.JoinChars(shown)) == expected.bouquet;
    assert store.flowerLists == CreditLists(lists, id, Credited(base, m, amount, caterpillar), threshold, picks);
    reply := Added(name, caterpillar, given, totalStitches, Text.Strip(Text.JoinChars(shown)));
  }

  /** The handler: the chat check, the duplicate guard, the argument check,
    * then `Credit`. */
  method AddStitches(store: Db.Store, log: MessageLog.Log, allowedChat: Option<int>, threshold: int,
                     m: Message, caterpillar: bool, picks: nat -> nat) returns (reply: Reply)
    requires threshold > 0
    requires store.Valid() && log.Valid()
    modifies store, log
    ensures store.Valid() && log.Valid()
    ensures allowedChat != Some(m.chatId) ==>
      reply == WrongChat && unchanged(store) && unchanged(log)
    ensures allowedChat == Some(m.chatId) && m.messageId in old(log.ids) ==>
      reply == Duplicate && unchanged(store) && unchanged(log)
    ensures allowedChat == Some(m.chatId) && m.messageId !in old(log.ids) ==>
      log.ids == MessageLog.Cleaned(old(log.ids) + {m.messageId})
    ensures allowedChat == Some(m.chatId) && m.messageId !in old(log.ids) && ParseAmount(m.text).Failure? ==>
      reply == Rejected(ParseAmount(m.text).error) && unchanged(store)
    ensures allowedChat == Some(m.chatId) && m.messageId !in old(log.ids) && ParseAmount(m.text).Success? ==>
      && store.users == CreditUsers(old(store.users), m, ParseAmount(m.text).value, caterpillar)
      && store.flowerLists == CreditLists(old(store.flowerLists), m.userId,
           Credited(old(store.users), m, ParseAmount(m.text).value, caterpillar), threshold, picks)
      && reply == CreditReply(old(store.users), old(store.flowerLists), m, ParseAmount(m.text).value,
           caterpillar, threshold, picks)
  {
    if allowedChat != Some(m.chatId) {
      return WrongChat;
    }
    if log.Seen(m.messageId) {
      return Duplicate;
    }
    log.Record(m.messageId);
    log.Clean();
    var parsed := ParseAmount(m.text);
    if parsed.Failure? {
      return Rejected(parsed.error);
    }
    reply := Credit(store, threshold, m, parsed.value, caterpillar, picks);
  }
}

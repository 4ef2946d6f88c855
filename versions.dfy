/** The two `/add` handlers side by side. handlers/add.py tops the flower
  * list up to total // 500 entries; main.py grants one flower per multiple
  * of 500 crossed since the count read back after the caterpillar. They
  * part ways once a caterpillar has pushed a user below a multiple of 500
  * that was already paid for. */
module Versions {
  import Db
  import opened Command
  import AddHandler
  import MainHandler

  /** main.py, crediting 100 after a caterpillar at exactly k multiples of
    * 500, crosses the k-th multiple again and grants one flower. */
  lemma MainRegrants(users: map<int, Db.Row>, m: Message, k: int, picks: nat -> nat)
    requires k >= 1
    requires m.userId in users && users[m.userId].stitches == 500 * k
    ensures MainHandler.CreditReply(users, m, 100, true, picks).granted == 1
  {
    var prev := 500 * k - 100;
    assert AfterCaterpillar(users[m.userId].stitches, true) == prev;
    assert prev / 500 == k - 1 by {
      assert prev == 500 * (k - 1) + 400;
    }
    assert (prev + 100) / 500 == k;
    MainHandler.GrantedPerLevel(users[m.userId], 100, true, picks);
    MainHandler.CreditReplyOfRow(users, m, 100, true, picks, users[m.userId]);
  }

  /** handlers/add.py, in the same situation with a list already holding k
    * flowers, grants none. */
  lemma AddWithholds(users: map<int, Db.Row>, lists: map<int, seq<char>>, m: Message, k: int, picks: nat -> nat)
    requires k >= 1
    requires m.userId in users && users[m.userId].stitches == 500 * k
    requires |Db.ListOf(lists, m.userId)| >= k
    ensures AddHandler.CreditReply(users, lists, m, 100, true, 500, picks).granted == 0
  {
    assert AddHandler.Credited(users, m, 100, true) == 500 * k;
    assert (500 * k) / 500 == k;
  }

  /** A user at exactly k multiples of 500, whose flower list already pays
    * for them, is hit by a caterpillar and then credits the 100 stitches it
    * took: main.py pays a flower again for the same multiple, handlers/add.py
    * pays nothing. */
  lemma RegrantAfterCaterpillar(users: map<int, Db.Row>, lists: map<int, seq<char>>, m: Message, k: int,
                                picks: nat -> nat)
    requires k >= 1
    requires m.userId in users && users[m.userId].stitches == 500 * k
    requires |Db.ListOf(lists, m.userId)| >= k
    ensures MainHandler.CreditReply(users, m, 100, true, picks).granted
         != AddHandler.CreditReply(users, lists, m, 100, true, 500, picks).granted
  {
    MainRegrants(users, m, k, picks);
    AddWithholds(users, lists, m, k, picks);
  }
}

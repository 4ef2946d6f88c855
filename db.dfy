/** The record store of db.py: the `users` table keyed by `user_id`, one
  * method per SQL statement. Because `user_id` is declared INTEGER PRIMARY
  * KEY it is SQLite's rowid, so "ORDER BY rowid" orders by user id. The
  * per-user flower list that handlers/add.py reads and appends through
  * `get_user_flowers_list` and `add_flower_to_user` (absent from db.py) is a
  * second table, `flowerLists`. */
module Db {
  import opened Wrappers
  import Text

  /** One row of `users`: name, stitches, the space-joined flower string and
    * the caterpillar counter. */
  datatype Row = Row(name: string, stitches: int, flowers: string, caterpillars: int)

  /** What `get_user` and `get_top_users` select: name, stitches, flowers. */
  datatype UserView = UserView(name: string, stitches: int, flowers: string)

  /** The row INSERT OR IGNORE creates: the column defaults of `init_db`. */
  function NewRow(name: string): (r: Row)
    ensures r.name == name && r.stitches == 0 && r.flowers == [] && r.caterpillars == 0
  {
    Row(name, 0, [], 0)
  }

  /** The row of `id` once `add_user(id, name)` has run: the existing row,
    * or a fresh one. */
  function Registered(users: map<int, Row>, id: int, name: string): (r: Row)
    ensures id in users ==> r == users[id]
    ensures id !in users ==> r == NewRow(name)
  {
    if id in users then users[id] else NewRow(name)
  }

  function View(r: Row): UserView
  {
    UserView(r.name, r.stitches, r.flowers)
  }

  /** The flower string after `update_flowers` appends `newFlower`. */
  function JoinFlower(current: string, newFlower: string): string
  {
    Text.Strip(current + [' '] + newFlower)
  }

  /** A flower string as `update_flowers` keeps it, given a stored string
    * without outer whitespace: the new flower alone when the string was
    * empty, otherwise joined with one space. */
  lemma JoinFlowerAppends(current: string, f: char)
    requires Text.NoOuterSpace(current) && !Text.IsSpace(f)
    ensures JoinFlower(current, [f]) == if current == [] then [f] else current + [' ', f]
  {
    assert current + [' '] + [f] == current + [' ', f];
    Text.StripAppendChar(current, f);
    Text.StripKeeps(current);
  }

  /** The flower string after `update_flowers` has appended each of `fs`
    * in turn to the stored string `s`. */
  function AppendAll(s: string, fs: seq<char>): (r: string)
    ensures Text.NoOuterSpace(s) || fs != [] ==> Text.NoOuterSpace(r)
  {
    if fs == [] then s else JoinFlower(AppendAll(s, fs[..|fs| - 1]), [fs[|fs| - 1]])
  }

  lemma AppendAllStep(s: string, fs: seq<char>, f: char)
    ensures AppendAll(s, fs + [f]) == JoinFlower(AppendAll(s, fs), [f])
  {
    assert (fs + [f])[..|fs|] == fs;
  }

  /** Appending flowers one by one to an empty string gives them joined by
    * single spaces: the flower column written by `update_flowers` and the
    * bouquet rendered from a flower list agree. */
  lemma {:induction false} AppendAllJoins(fs: seq<char>)
    requires forall i :: 0 <= i < |fs| ==> !Text.IsSpace(fs[i])
    ensures AppendAll([], fs) == Text.JoinChars(fs)
  {
    if fs != [] {
      var p := fs[..|fs| - 1];
      var f := fs[|fs| - 1];
      AppendAllJoins(p);
      JoinFlowerAppends(Text.JoinChars(p), f);
      if |fs| > 1 {
        assert Text.JoinChars(fs) == Text.JoinChars(p) + [' ', f];
      }
    }
  }

  /** A user's flower list in the list table: empty when the user has none. */
  function ListOf(lists: map<int, seq<char>>, id: int): seq<char>
  {
    if id in lists then lists[id] else []
  }

  /** The table's invariant: no negative counters, and every flower string
    * in the form `update_flowers` writes. */
  ghost predicate WellFormed(users: map<int, Row>)
  {
    forall id :: id in users ==>
      users[id].stitches >= 0 && users[id].caterpillars >= 0 && Text.NoOuterSpace(users[id].flowers)
  }

  lemma NonEmptyHasMember(keys: set<int>)
    requires keys != {}
    ensures exists x :: x in keys
  {
    if forall x :: x !in keys {
      assert false;
    }
  }

  /** `m` is the smallest of `keys`. */
  predicate IsSmallest(m: int, keys: set<int>)
  {
    m in keys && forall k :: k in keys ==> m <= k
  }

  lemma SmallestOfInsert(others: set<int>, x: int, m: int)
    requires IsSmallest(m, others)
    ensures IsSmallest(if x < m then x else m, others + {x})
  {
  }

  /** A non-empty set of user ids has a smallest one. */
  lemma {:induction false} SmallestExists(keys: set<int>)
    requires keys != {}
    ensures exists m :: IsSmallest(m, keys)
  {
    NonEmptyHasMember(keys);
    var x :| x in keys;
    var others := keys - {x};
    if others == {} {
      assert keys == {x};
      assert IsSmallest(x, keys);
    } else {
      SmallestExists(others);
      var m :| IsSmallest(m, others);
      SmallestOfInsert(others, x, m);
      assert others + {x} == keys;
    }
  }

  /** Row `m` has the most stitches among the rows `ids`. */
  predicate IsMost(users: map<int, Row>, m: int, ids: set<int>)
    requires ids <= users.Keys
  {
    m in ids && forall k :: k in ids ==> users[k].stitches <= users[m].stitches
  }

  lemma MostOfInsert(users: map<int, Row>, others: set<int>, x: int, m: int)
    requires others <= users.Keys && x in users
    requires IsMost(users, m, others)
    ensures IsMost(users, if users[x].stitches > users[m].stitches then x else m, others + {x})
  {
  }

  /** A non-empty set of rows has one with the most stitches. */
  lemma {:induction false} MostStitchesExists(users: map<int, Row>, ids: set<int>)
    requires ids != {} && ids <= users.Keys
    ensures exists m :: IsMost(users, m, ids)
  {
    NonEmptyHasMember(ids);
    var x :| x in ids;
    var others := ids - {x};
    if others == {} {
      assert ids == {x};
      assert IsMost(users, x, ids);
    } else {
      MostStitchesExists(users, others);
      var m :| IsMost(users, m, others);
      MostOfInsert(users, others, x, m);
      assert others + {x} == ids;
    }
  }

  /** The user `id` occupies one of the rows. */
  predicate Listed(rows: seq<(int, Row)>, id: int)
  {
    exists i :: 0 <= i < |rows| && rows[i].0 == id
  }

  lemma ListedAppend(rows: seq<(int, Row)>, row: (int, Row))
    ensures forall id :: Listed(rows + [row], id) <==> Listed(rows, id) || row.0 == id
  {
    var r := rows + [row];
    forall id ensures Listed(r, id) <==> Listed(rows, id) || row.0 == id {
      if Listed(rows, id) {
        var i :| 0 <= i < |rows| && rows[i].0 == id;
        assert r[i] == rows[i];
      }
      if row.0 == id {
        assert r[|rows|] == row;
      }
      if Listed(r, id) {
        var i :| 0 <= i < |r| && r[i].0 == id;
        if i < |rows| { assert r[i] == rows[i]; }
      }
    }
  }

  /** `SELECT * FROM users ORDER BY rowid ASC`: every row exactly once, in
    * increasing user id. */
  method RowsByUserId(users: map<int, Row>) returns (rows: seq<(int, Row)>)
    ensures forall i, j :: 0 <= i < j < |rows| ==> rows[i].0 < rows[j].0
    ensures forall i :: 0 <= i < |rows| ==> rows[i].0 in users && users[rows[i].0] == rows[i].1
    ensures forall id :: id in users ==> Listed(rows, id)
  {
    rows := [];
    var rest := users.Keys;
    while rest != {}
      invariant rest <= users.Keys
      invariant forall i, j :: 0 <= i < j < |rows| ==> rows[i].0 < rows[j].0
      invariant forall i :: 0 <= i < |rows| ==> rows[i].0 in users && users[rows[i].0] == rows[i].1
      invariant forall i, k :: 0 <= i < |rows| && k in rest ==> rows[i].0 < k
      invariant forall id :: id in users ==> id in rest || Listed(rows, id)
      decreases rest
    {
      SmallestExists(rest);
      var id :| IsSmallest(id, rest);
      ListedAppend(rows, (id, users[id]));
      rows := rows + [(id, users[id])];
      rest := rest - {id};
    }
  }

  /** The number of rows `LIMIT limit` lets through; a negative limit is no limit. */
  function LimitCount(limit: int, available: nat): (n: nat)
    ensures n <= available
    ensures limit >= 0 ==> n <= limit
    ensures n == available || n == limit
  {
    if 0 <= limit < available then limit else available
  }

  /** What holds while the leaderboard is being selected: `top` holds distinct
    * rows of the table by non-increasing stitches, `rest` the ids not yet
    * taken, none of which has more stitches than a row already taken. */
  ghost predicate TopSoFar(users: map<int, Row>, top: seq<(int, Row)>, rest: set<int>)
  {
    && rest <= users.Keys
    && |rest| + |top| == |users|
    && (forall i :: 0 <= i < |top| ==> top[i].0 in users && users[top[i].0] == top[i].1 && top[i].0 !in rest)
    && (forall i, j :: 0 <= i < j < |top| ==> top[i].0 != top[j].0)
    && (forall i, j :: 0 <= i < j < |top| ==> top[i].1.stitches >= top[j].1.stitches)
    && (forall k, i :: k in rest && 0 <= i < |top| ==> users[k].stitches <= top[i].1.stitches)
    && (forall k :: k in users && !Listed(top, k) ==> k in rest)
  }

  /** Taking the row with the most stitches among the rest keeps `TopSoFar`. */
  lemma TakeMost(users: map<int, Row>, top: seq<(int, Row)>, rest: set<int>, id: int)
    requires TopSoFar(users, top, rest)
    requires IsMost(users, id, rest)
    ensures TopSoFar(users, top + [(id, users[id])], rest - {id})
  {
    var top', rest' := top + [(id, users[id])], rest - {id};
    assert |rest'| == |rest| - 1;
    forall i | 0 <= i < |top'|
      ensures top'[i].0 in users && users[top'[i].0] == top'[i].1 && top'[i].0 !in rest'
    {
      if i < |top| { assert top'[i] == top[i]; }
    }
    forall i, j | 0 <= i < j < |top'|
      ensures top'[i].0 != top'[j].0 && top'[i].1.stitches >= top'[j].1.stitches
    {
      assert top'[i] == top[i];
      if j < |top| { assert top'[j] == top[j]; }
    }
    forall k, i | k in rest' && 0 <= i < |top'|
      ensures users[k].stitches <= top'[i].1.stitches
    {
      if i < |top| { assert top'[i] == top[i]; }
    }
    ListedAppend(top, (id, users[id]));
  }

  /** `SELECT ... FROM users ORDER BY stitches DESC LIMIT limit`: as many
    * distinct rows as the limit allows, with non-increasing stitches, and no
    * row left out has more stitches than a row taken. SQLite leaves the order
    * of equal stitch counts open; so does this method. */
  method TopByStitches(users: map<int, Row>, limit: int) returns (top: seq<(int, Row)>)
    ensures |top| == LimitCount(limit, |users|)
    ensures forall i, j :: 0 <= i < j < |top| ==> top[i].0 != top[j].0
    ensures forall i :: 0 <= i < |top| ==> top[i].0 in users && users[top[i].0] == top[i].1
    ensures forall i, j :: 0 <= i < j < |top| ==> top[i].1.stitches >= top[j].1.stitches
    ensures forall id, i :: id in users && !Listed(top, id) && 0 <= i < |top| ==>
      users[id].stitches <= top[i].1.stitches
  {
    var n := LimitCount(limit, |users|);
    top := [];
    var rest := users.Keys;
    while |top| < n
      invariant TopSoFar(users, top, rest) && |top| <= n
      decreases n - |top|
    {
      MostStitchesExists(users, rest);
      var id :| IsMost(users, id, rest);
      TakeMost(users, top, rest, id);
      top := top + [(id, users[id])];
      rest := rest - {id};
    }
  }

  /** The `users` table (with the per-user flower lists of handlers/add.py). */
  class Store {
    var users: map<int, Row>
    var flowerLists: map<int, seq<char>>

    ghost predicate Valid()
      reads this`users
    {
      WellFormed(users)
    }

    /** init_db on a fresh database: the table exists and is empty. */
    constructor ()
      ensures Valid()
      ensures users == map[] && flowerLists == map[]
    {
      users := map[];
      flowerLists := map[];
    }

    /** add_user: INSERT OR IGNORE; an existing row, its name included, is kept. */
    method AddUser(id: int, name: string)
      requires Valid()
      modifies this`users
      ensures Valid()
      ensures id in users
      ensures id in old(users) ==> users == old(users)
      ensures id !in old(users) ==> users == old(users)[id := NewRow(name)]
      ensures GetUser(id) == if id in old(users) then old(GetUser(id)) else Some(UserView(name, 0, []))
    {
      if id !in users {
        users := users[id := NewRow(name)];
      }
    }

    /** update_stitches: stitches + amount, unclamped; an absent id changes nothing. */
    method UpdateStitches(id: int, amount: int)
      requires Valid()
      modifies this`users
      ensures amount >= 0 ==> Valid()
      ensures id in old(users) ==> users == old(users)[id := old(users)[id].(stitches := old(users)[id].stitches + amount)]
      ensures id !in old(users) ==> users == old(users)
      ensures id in old(users) ==> GetUser(id) == Some(old(GetUser(id)).value.(stitches := old(GetUser(id)).value.stitches + amount))
    {
      if id in users {
        users := users[id := users[id].(stitches := users[id].stitches + amount)];
      }
    }

    /** subtract_stitches: MAX(stitches - amount, 0); an absent id changes nothing. */
    method SubtractStitches(id: int, amount: int)
      requires Valid()
      modifies this`users
      ensures Valid()
      ensures id in old(users) ==> users == old(users)[id := old(users)[id].(stitches := Max(old(users)[id].stitches - amount, 0))]
      ensures id !in old(users) ==> users == old(users)
      ensures id in old(users) ==> GetUser(id) == Some(old(GetUser(id)).value.(stitches := Max(old(GetUser(id)).value.stitches - amount, 0)))
    {
      if id in users {
        users := users[id := users[id].(stitches := Max(users[id].stitches - amount, 0))];
      }
    }

    /** get_user: name, stitches and flowers of the row, or None. */
    function GetUser(id: int): (u: Option<UserView>)
      reads this`users
      ensures u.Some? <==> id in users
      ensures u.Some? ==> u.value == View(users[id])
    {
      if id in users then Some(View(users[id])) else None
    }

    /** update_flowers: reads the row, then writes (flowers + ' ' + newFlower).strip(). */
    method UpdateFlowers(id: int, newFlower: string)
      requires Valid()
      modifies this`users
      ensures Valid()
      ensures id in old(users) ==> users == old(users)[id := old(users)[id].(flowers := JoinFlower(old(users)[id].flowers, newFlower))]
      ensures id !in old(users) ==> users == old(users)
      ensures id in old(users) ==> GetUser(id) == Some(old(GetUser(id)).value.(flowers := JoinFlower(old(GetUser(id)).value.flowers, newFlower)))
    {
      var user := GetUser(id);
      if user.Some? {
        var updated := JoinFlower(user.value.flowers, newFlower);
        users := users[id := users[id].(flowers := updated)];
      }
    }

    /** reset_all: DELETE FROM users. */
    method ResetAll()
      requires Valid()
      modifies this`users
      ensures Valid()
      ensures users == map[]
      ensures forall id :: GetUser(id) == None
    {
      users := map[];
    }

    /** get_all_users: every row, by increasing user id. */
    method GetAllUsers() returns (rows: seq<(int, Row)>)
      ensures forall i, j :: 0 <= i < j < |rows| ==> rows[i].0 < rows[j].0
      ensures forall i :: 0 <= i < |rows| ==> rows[i].0 in users && users[rows[i].0] == rows[i].1
      ensures forall id :: id in users ==> Listed(rows, id)
    {
      rows := RowsByUserId(users);
    }

    /** get_top_users: the `limit` rows with most stitches, most first. */
    method GetTopUsers(limit: int) returns (top: seq<UserView>)
      ensures |top| == LimitCount(limit, |users|)
      ensures forall i, j :: 0 <= i < j < |top| ==> top[i].stitches >= top[j].stitches
      ensures exists ids: seq<int> ::
        && |ids| == |top|
        && (forall i, j :: 0 <= i < j < |ids| ==> ids[i] != ids[j])
        && (forall i :: 0 <= i < |ids| ==> ids[i] in users && View(users[ids[i]]) == top[i])
        && (forall id, i :: id in users && id !in ids && 0 <= i < |top| ==> users[id].stitches <= top[i].stitches)
    {
      var rows := TopByStitches(users, limit);
      top := seq(|rows|, i requires 0 <= i < |rows| => View(rows[i].1));
      var ids := seq(|rows|, i requires 0 <= i < |rows| => rows[i].0);
      forall id | id in users && Listed(rows, id) ensures id in ids {
        var i :| 0 <= i < |rows| && rows[i].0 == id;
        assert ids[i] == id;
      }
    }

    /** get_caterpillars: the counter, or 0 for an absent user. */
    function GetCaterpillars(id: int): (n: int)
      reads this`users
      ensures id !in users ==> n == 0
      ensures id in users ==> n == users[id].caterpillars
    {
      if id in users then users[id].caterpillars else 0
    }

    /** increment_caterpillars: the counter grows by exactly one. */
    method IncrementCaterpillars(id: int)
      requires Valid()
      modifies this`users
      ensures Valid()
      ensures id in old(users) ==> users == old(users)[id := old(users)[id].(caterpillars := old(users)[id].caterpillars + 1)]
      ensures id !in old(users) ==> users == old(users)
      ensures GetCaterpillars(id) == old(GetCaterpillars(id)) + (if id in old(users) then 1 else 0)
    {
      if id in users {
        users := users[id := users[id].(caterpillars := users[id].caterpillars + 1)];
      }
    }

    /** get_user_flowers_list: the user's flowers in grant order (empty if none). */
    function GetUserFlowersList(id: int): seq<char>
      reads this`flowerLists
    {
      ListOf(flowerLists, id)
    }

    /** add_flower_to_user: appends one flower to the user's list. */
    method AddFlowerToUser(id: int, f: char)
      modifies this`flowerLists
      ensures flowerLists == old(flowerLists)[id := ListOf(old(flowerLists), id) + [f]]
    {
      flowerLists := flowerLists[id := GetUserFlowersList(id) + [f]];
    }
  }
}

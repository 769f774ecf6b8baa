/** Operations on users and their interests. */
module Users {
  import opened Ids
  import opened Store
  import opened Queries
  import opened Discussions

  // ----- new users

  predicate IsAlphaNumeric(c: char) {
    'a' <= c <= 'z' || 'A' <= c <= 'Z' || '0' <= c <= '9'
  }

  predicate UserPart(s: string) {
    s != "" && forall k :: 0 <= k < |s| ==> IsAlphaNumeric(s[k]) || s[k] == '_' || s[k] == '.' || s[k] == '+' || s[k] == '-'
  }

  predicate Label(s: string) {
    s != "" && forall k :: 0 <= k < |s| ==> IsAlphaNumeric(s[k]) || s[k] == '-'
  }

  predicate Domain(s: string) {
    s != "" && forall k :: 0 <= k < |s| ==> IsAlphaNumeric(s[k]) || s[k] == '-' || s[k] == '.'
  }

  predicate SplitsAt(s: string, i: nat, j: nat)
    requires i < j < |s|
  {
    s[i] == '@' && s[j] == '.' && UserPart(s[..i]) && Label(s[i + 1..j]) && Domain(s[j + 1..])
  }

  /** A user part, an at sign, a domain label, a dot, and the rest of the domain. */
  predicate IsEmailAddress(s: string) {
    exists i, j :: 0 <= i < j < |s| && SplitsAt(s, i, j)
  }

  /** Whatever is put together like an address is one, and every address is put together like that. */
  lemma PartsMakeAddress(user: string, host: string, domain: string)
    requires UserPart(user) && Label(host) && Domain(domain)
    ensures IsEmailAddress(user + "@" + host + "." + domain)
  {
    var s := user + "@" + host + "." + domain;
    var i, j := |user|, |user| + 1 + |host|;
    assert s[..i] == user && s[i + 1..j] == host && s[j + 1..] == domain;
    assert SplitsAt(s, i, j);
  }

  lemma AddressHasParts(s: string) returns (user: string, host: string, domain: string)
    requires IsEmailAddress(s)
    ensures UserPart(user) && Label(host) && Domain(domain) && s == user + "@" + host + "." + domain
  {
    hide UserPart, Label, Domain;
    var i, j :| 0 <= i < j < |s| && SplitsAt(s, i, j);
    user, host, domain := s[..i], s[i + 1..j], s[j + 1..];
    assert s == s[..i] + [s[i]] + s[i + 1..j] + [s[j]] + s[j + 1..];
  }

  predicate ValidUsername(name: string) {
    name != "" && !AllWhitespace(name) && !IsEmailAddress(name)
  }

  predicate UsernameFree(t: Tables, name: string) {
    forall u :: u in t.users ==> t.users[u].username != name
  }

  lemma PutUser(t: Database, u: UserID, user: User)
    requires u !in t.users
    ensures Integrity(t.(users := t.users[u := user])) <==> UsernameFree(t, user.username)
  {
    var next := t.users[u := user];
    if UniqueUsernames(next) {
      forall v | v in t.users ensures t.users[v].username != user.username {
        assert next[v] == t.users[v] && next[u] == user;
      }
    }
  }

  /** Registers a user under a generated id. */
  method NewUser(db: EventStore, u: UserID, user: User) returns (r: Outcome<()>)
    modifies db
    ensures r.Ok? <==>
      ValidUsername(user.username) && u !in old(db.t).users && UsernameFree(old(db.t), user.username)
    ensures r.Err? ==> r.error == if ValidUsername(user.username) then ConstraintViolated else Invalid
    ensures r.Ok? ==> NotBlank(user.username) && !IsEmailAddress(user.username)
    ensures r.Ok? ==> forall v :: v in old(db.t).users ==> v != u && old(db.t).users[v].username != user.username
    ensures db.t == if r.Ok? then old(db.t).(users := old(db.t).users[u := user]) else old(db.t)
  {
    hide Integrity;
    if user.username == "" || AllWhitespace(user.username) || IsEmailAddress(user.username) {
      return Err(Invalid);
    }
    if u in db.t.users {
      return Err(ConstraintViolated);
    }
    PutUser(db.t, u, user);
    var tx := new Transaction(db.t);
    var ok := tx.Exec(tx.t.(users := tx.t.users[u := user]));
    if !ok {
      return Err(ConstraintViolated);
    }
    db.t := tx.t;
    return Ok(());
  }

  // ----- interest and verification

  /** An interest of zero is the absence of a row. */
  function WithInterest(t: Tables, u: UserID, d: DiscussionID, level: int): Tables {
    t.(interest := if level == 0 then t.interest - {(u, d)} else t.interest[(u, d) := level])
  }

  predicate MaySetInterest(t: Tables, u: UserID, d: DiscussionID, level: int) {
    level == 0 || (1 <= level <= INTEREST_MAX && u in t.users && d in t.discussions)
  }

  method SetInterest(db: EventStore, u: UserID, d: DiscussionID, level: int) returns (r: Outcome<()>)
    modifies db
    ensures r.Ok? <==> MaySetInterest(old(db.t), u, d, level)
    ensures r.Err? ==> r.error == if 0 <= level <= INTEREST_MAX then NotFound else Invalid
    ensures db.t == if r.Ok? then WithInterest(old(db.t), u, d, level) else old(db.t)
    // Row by row: level 0 leaves no row, any other level that row, and all other rows are as they were.
    ensures r.Ok? <==> level == 0 || (1 <= level <= 100 && u in old(db.t).users && d in old(db.t).discussions)
    ensures db.t == old(db.t).(interest := db.t.interest)
    ensures r.Ok? ==> ((u, d) in db.t.interest <==> level != 0)
    ensures r.Ok? && level != 0 ==> db.t.interest[(u, d)] == level
    ensures forall k :: k != (u, d) ==> (k in db.t.interest <==> k in old(db.t).interest)
    ensures forall k :: k != (u, d) && k in db.t.interest ==> db.t.interest[k] == old(db.t).interest[k]
  {
    if level > INTEREST_MAX || level < 0 {
      return Err(Invalid);
    }
    if level == 0 {
      DropOneInterest(db.t, u, d);
      hide Integrity;
      db.t := db.t.(interest := db.t.interest - {(u, d)});
      return Ok(());
    }
    hide Integrity;
    var tx := new Transaction(db.t);
    var ok := SetInterestTx(tx, u, d, level);
    if !ok {
      return Err(NotFound);
    }
    db.t := tx.t;
    return Ok(());
  }

  lemma DropOneInterest(t: Database, u: UserID, d: DiscussionID)
    ensures Integrity(t.(interest := t.interest - {(u, d)}))
  {}

  /** t' has the given flag at user u, if there is such a user, and is otherwise t. */
  ghost predicate OnlyVerifiedChanged(t: Tables, u: UserID, verified: bool, t': Tables) {
    && t' == t.(users := t'.users)
    && t'.users.Keys == t.users.Keys
    && (forall v :: v in t.users && v != u ==> t'.users[v] == t.users[v])
    && (u in t.users ==>
      && t'.users[u].isVerified == verified
      && t'.users[u].username == t.users[u].username
      && t'.users[u].isAdmin == t.users[u].isAdmin)
  }

  lemma VerifiedKeepsIntegrity(t: Database, u: UserID, verified: bool, t': Tables)
    requires OnlyVerifiedChanged(t, u, verified, t')
    ensures Integrity(t')
  {
    forall v, w | v in t'.users && w in t'.users && t'.users[v].username == t'.users[w].username ensures v == w {
      assert t.users[v].username == t'.users[v].username && t.users[w].username == t'.users[w].username;
    }
  }

  /** An update of no row is not an error. */
  method SetVerified(db: EventStore, u: UserID, verified: bool)
    modifies db
    ensures OnlyVerifiedChanged(old(db.t), u, verified, db.t)
    ensures db.t == old(db.t).(users := db.t.users) && db.t.users.Keys == old(db.t).users.Keys
    ensures forall v :: v in db.t.users && v != u ==> db.t.users[v] == old(db.t).users[v]
    ensures u in db.t.users ==> db.t.users[u] == old(db.t).users[u].(isVerified := verified)
  {
    if u in db.t.users {
      var next := db.t.(users := db.t.users[u := db.t.users[u].(isVerified := verified)]);
      VerifiedKeepsIntegrity(db.t, u, verified, next);
      hide Integrity;
      db.t := next;
    }
  }

  // ----- order of user ids

  /** Dictionary order by code point. */
  predicate TextLeq(a: string, b: string) {
    a == "" || (b != "" && (a[0] < b[0] || (a[0] == b[0] && TextLeq(a[1..], b[1..]))))
  }

  lemma {:induction false} TextTotal(a: string, b: string)
    ensures TextLeq(a, b) || TextLeq(b, a)
    ensures TextLeq(a, b) && TextLeq(b, a) ==> a == b
  {
    if a != "" && b != "" && a[0] == b[0] {
      TextTotal(a[1..], b[1..]);
      assert a == [a[0]] + a[1..] && b == [b[0]] + b[1..];
    }
  }

  lemma {:induction false} TextTransitive(a: string, b: string, c: string)
    requires TextLeq(a, b) && TextLeq(b, c)
    ensures TextLeq(a, c)
  {
    if a != "" && a[0] == b[0] == c[0] {
      TextTransitive(a[1..], b[1..], c[1..]);
    }
  }

  lemma PrefixOfTail(a: string, b: string, i: nat)
    requires i < |a| && i < |b| && a[0] == b[0]
    ensures a[1..][..i] == b[1..][..i] <==> a[..i + 1] == b[..i + 1]
  {
    var p, q := a[..i + 1], b[..i + 1];
    assert p == [a[0]] + a[1..][..i] && q == [b[0]] + b[1..][..i];
    assert p[1..] == a[1..][..i] && q[1..] == b[1..][..i];
  }

  /** A text comes before those that it is a prefix of, and those with a higher character where they first differ. */
  lemma {:induction false} TextLeqMeans(a: string, b: string)
    ensures TextLeq(a, b) <==>
            a <= b || exists i :: 0 <= i < |a| && i < |b| && a[..i] == b[..i] && a[i] < b[i]
  {
    if a != "" && b != "" {
      var a', b' := a[1..], b[1..];
      TextLeqMeans(a', b');
      assert a == [a[0]] + a' && b == [b[0]] + b';
      if a[0] == b[0] {
        assert a <= b <==> a' <= b';
        forall i | 0 <= i < |a'| && i < |b'| ensures a'[..i] == b'[..i] <==> a[..i + 1] == b[..i + 1] {
          PrefixOfTail(a, b, i);
        }
        if exists i :: 0 <= i < |a'| && i < |b'| && a'[..i] == b'[..i] && a'[i] < b'[i] {
          var i :| 0 <= i < |a'| && i < |b'| && a'[..i] == b'[..i] && a'[i] < b'[i];
          assert a[..i + 1] == b[..i + 1] && a[i + 1] < b[i + 1];
        }
        if exists i :: 0 <= i < |a| && i < |b| && a[..i] == b[..i] && a[i] < b[i] {
          var i :| 0 <= i < |a| && i < |b| && a[..i] == b[..i] && a[i] < b[i];
          assert a'[..i - 1] == b'[..i - 1] && a'[i - 1] < b'[i - 1];
        }
      } else if a[0] < b[0] {
        assert a[..0] == b[..0];
      } else {
        forall i | 0 < i && i < |a| && i < |b| ensures a[..i] != b[..i] {
          assert a[..i][0] != b[..i][0];
        }
      }
    }
  }

  /** u comes before v in order of user ids. */
  predicate IdBefore(u: UserID, v: UserID) {
    u != v && TextLeq(u.text, v.text)
  }

  lemma UserIdsAreOrdered(users: set<UserID>)
    ensures TotalOrderOn(users, (u: UserID, v: UserID) => TextLeq(u.text, v.text))
  {
    forall u: UserID, v: UserID ensures TextLeq(u.text, v.text) || TextLeq(v.text, u.text) {
      TextTotal(u.text, v.text);
    }
    forall u: UserID, v: UserID, w: UserID | TextLeq(u.text, v.text) && TextLeq(v.text, w.text)
      ensures TextLeq(u.text, w.text)
    {
      TextTransitive(u.text, v.text, w.text);
    }
  }

  /** The rows of the user table, ordered by user id. */
  method SelectUsers(t: Database) returns (rows: seq<UserID>)
    ensures Lists(rows, t.users.Keys)
    ensures forall i, j :: 0 <= i < j < |rows| ==> IdBefore(rows[i], rows[j])
  {
    hide TextLeq, Integrity;
    UserIdsAreOrdered(t.users.Keys);
    rows := SelectOrdered(t.users.Keys, (u: UserID, v: UserID) => TextLeq(u.text, v.text));
  }

  // ----- iteration with retries

  /** How one attempt at the query goes: refused at once, or rows of t up to an end, which may itself be an error. */
  datatype Query = Query(queryError: Option<Error>, t: Database, delivered: nat, endError: Option<Error>)

  type Callback = (UserID, User) -> Option<Error>

  /** Rows that are missing at the end are missing because of an error. */
  ghost predicate Possible(a: Query) {
    a.delivered <= |a.t.users| && (a.endError == None ==> a.delivered == |a.t.users|)
  }

  /** The attempt is silently repeated: the database was busy and nothing has been processed yet. */
  predicate Repeats(a: Query) {
    a.queryError == Some(Busy) || (a.queryError == None && a.delivered == 0 && a.endError == Some(Busy))
  }

  ghost predicate Completes(a: Query, callback: Callback) {
    a.queryError == None && a.endError == None && forall u :: u in a.t.users ==> callback(u, a.t.users[u]) == None
  }

  /** The callback fails for user u of t. */
  predicate Fails(t: Tables, callback: Callback, u: UserID) {
    u in t.users && callback(u, t.users[u]).Some?
  }

  /** visited are the first users of t in order of their ids, each once. */
  ghost predicate FirstUsers(t: Tables, visited: seq<UserID>) {
    && (forall i, j :: 0 <= i < j < |visited| ==> IdBefore(visited[i], visited[j]))
    && (forall u :: u in visited ==> u in t.users)
    && (forall u, v :: u in visited && v in t.users && v !in visited ==> IdBefore(u, v))
  }

  /** The calls stop at the first that fails, and otherwise at the last row delivered. */
  ghost predicate StopsRight(a: Query, callback: Callback, visited: seq<UserID>) {
    && (forall i :: 0 <= i < |visited| - 1 ==> !Fails(a.t, callback, visited[i]))
    && (a.queryError.Some? ==> visited == [])
    && (a.queryError == None && (forall u :: u in visited ==> !Fails(a.t, callback, u)) ==> |visited| == a.delivered)
  }

  /** What an attempt that is not repeated reports after these calls. */
  function Reported(a: Query, callback: Callback, visited: seq<UserID>): Option<Error> {
    if a.queryError.Some? then a.queryError
    else if visited != [] && Fails(a.t, callback, visited[|visited| - 1])
      then callback(visited[|visited| - 1], a.t.users[visited[|visited| - 1]])
    else if a.endError == Some(Busy) then Some(Other)
    else a.endError
  }

  lemma PrefixIsFirst(t: Tables, rows: seq<UserID>, n: nat)
    requires Lists(rows, t.users.Keys) && n <= |rows|
    requires forall i, j :: 0 <= i < j < |rows| ==> IdBefore(rows[i], rows[j])
    ensures FirstUsers(t, rows[..n])
  {
    hide IdBefore;
    assert forall j :: 0 <= j < n ==> rows[j] in rows[..n];
    forall u, v | u in rows[..n] && v in t.users && v !in rows[..n] ensures IdBefore(u, v) {
      var i :| 0 <= i < n && rows[i] == u;
      assert v in rows;
      var j :| 0 <= j < |rows| && rows[j] == v;
    }
    forall u | u in rows[..n] ensures u in t.users {
      assert u in rows;
    }
  }

  /**
   Calls back for every user. attempts says how the successive queries go, callback which calls fail;
   some attempt is not repeated. The list of all calls made, in whatever attempt, is returned.
   */
  method UserIterate(attempts: nat -> Query, callback: Callback, ghost last: nat)
    returns (err: Option<Error>, visited: seq<UserID>, n: nat)
    requires forall i :: Possible(attempts(i))
    requires !Repeats(attempts(last))
    ensures n <= last && !Repeats(attempts(n)) && forall i :: 0 <= i < n ==> Repeats(attempts(i))
    ensures FirstUsers(attempts(n).t, visited) && StopsRight(attempts(n), callback, visited)
    ensures err == Reported(attempts(n), callback, visited)
    ensures err == None <==> Completes(attempts(n), callback)
    ensures err == None ==> Lists(visited, attempts(n).t.users.Keys)
  {
    hide Integrity, IdBefore, FirstUsers, Lists;
    n, visited := 0, [];
    while true
      invariant n <= last && forall i :: 0 <= i < n ==> Repeats(attempts(i))
      invariant visited == []
      decreases last - n
    {
      var a := attempts(n);
      assert Possible(a);
      var rows := SelectUsers(a.t);
      ListedRows(a.t, rows);
      if a.queryError == Some(Busy) {
        n := n + 1;
        continue;
      } else if a.queryError.Some? {
        assert rows[..0] == [];
        return a.queryError, visited, n;
      }
      var processed := 0;
      while processed < a.delivered
        invariant processed <= a.delivered && visited == rows[..processed]
        invariant forall u :: u in visited ==> !Fails(a.t, callback, u)
      {
        var u := rows[processed];
        assert u in rows && rows[..processed + 1] == visited + [u];
        visited := visited + [u];
        if callback(u, a.t.users[u]).Some? {
          assert Fails(a.t, callback, u);
          return callback(u, a.t.users[u]), visited, n;
        }
        processed := processed + 1;
      }
      if a.endError == Some(Busy) {
        if processed == 0 {
          n := n + 1;
          continue;
        }
        return Some(Other), visited, n;
      }
      assert a.endError == None ==> visited == rows;
      return a.endError, visited, n;
    }
  }

  /** The listing has one row per user, and its prefixes are the first users. */
  lemma ListedRows(t: Tables, rows: seq<UserID>)
    requires Lists(rows, t.users.Keys)
    requires forall i, j :: 0 <= i < j < |rows| ==> IdBefore(rows[i], rows[j])
    ensures |rows| == |t.users|
    ensures forall u :: u in rows <==> u in t.users
    ensures forall n :: 0 <= n <= |rows| ==> FirstUsers(t, rows[..n])
  {
    ListLength(rows, t.users.Keys);
    forall n | 0 <= n <= |rows| ensures FirstUsers(t, rows[..n]) {
      PrefixIsFirst(t, rows, n);
    }
  }
}

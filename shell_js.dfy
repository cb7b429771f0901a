/**
 * `getShellJS(ns, query)`: the mongo-shell text of an export query,
 *
 *     db.<collection>.find(
 *       <filter>[,
 *       <projection>]
 *     )[.limit(n)][.skip(n)]
 *
 * The filter and projection arrive already rendered as object-literal text.
 */
module ShellJs {
  import opened Wrappers
  import DecimalText

  datatype Query = Query(filter: string, project: Option<string>, limit: Option<int>, skip: Option<int>)

  /** The database part of a namespace: everything before the first '.'. */
  function DatabaseName(ns: string): string
  {
    if ns == "" || ns[0] == '.' then "" else [ns[0]] + DatabaseName(ns[1..])
  }

  /** The collection part of a namespace: everything after the first '.' ("" when there is none). */
  function CollectionName(ns: string): string
  {
    if ns == "" then "" else if ns[0] == '.' then ns[1..] else CollectionName(ns[1..])
  }

  /** The collection part is a tail of the namespace, and empty when there is no '.'. */
  lemma {:induction false} CollectionNameIsTail(ns: string)
    ensures var r := CollectionName(ns); |r| <= |ns| && r == ns[|ns| - |r|..]
    ensures '.' !in ns ==> CollectionName(ns) == ""
  {
    if ns != "" && ns[0] != '.' {
      CollectionNameIsTail(ns[1..]);
      assert ns[1..][|ns| - 1 - |CollectionName(ns)|..] == ns[|ns| - |CollectionName(ns)|..];
    }
  }

  function Call(name: string, n: int): string
  {
    "." + name + "(" + DecimalText.IntToString(n) + ")"
  }

  /** The `find` call: the filter, then the projection if there is one, each on its own indented line. */
  function FindCall(ns: string, q: Query): string
  {
    "db." + CollectionName(ns) + ".find(\n  " + q.filter
      + (if q.project.Some? then ",\n  " + q.project.value else "")
      + "\n)"
  }

  /** The cursor calls chained after `find`: the limit first, then the skip. */
  function CursorCalls(q: Query): string
  {
    (if q.limit.Some? then Call("limit", q.limit.value) else "")
      + (if q.skip.Some? then Call("skip", q.skip.value) else "")
  }

  function GetShellJS(ns: string, q: Query): string
  {
    FindCall(ns, q) + CursorCalls(q)
  }

  /** A namespace `db.coll` whose database name has no '.' splits back into `db` and `coll`. */
  lemma {:induction false} NamespaceSplit(db: string, coll: string)
    requires '.' !in db
    ensures DatabaseName(db + "." + coll) == db
    ensures CollectionName(db + "." + coll) == coll
  {
    var ns := db + "." + coll;
    if db != "" {
      assert ns[1..] == db[1..] + "." + coll;
      NamespaceSplit(db[1..], coll);
      assert db == [db[0]] + db[1..];
    } else {
      assert ns[1..] == coll;
    }
  }

  /** With a filter only: the find call and nothing after its closing parenthesis. */
  lemma FilterOnly(db: string, coll: string, filter: string)
    requires '.' !in db
    ensures GetShellJS(db + "." + coll, Query(filter, None, None, None))
         == "db." + coll + ".find(\n  " + filter + "\n)"
  {
    NamespaceSplit(db, coll);
  }

  /** A projection follows the filter after a comma, on its own two-space-indented line. */
  lemma WithProjection(db: string, coll: string, filter: string, project: string)
    requires '.' !in db
    ensures GetShellJS(db + "." + coll, Query(filter, Some(project), None, None))
         == "db." + coll + ".find(\n  " + filter + ",\n  " + project + "\n)"
  {
    NamespaceSplit(db, coll);
  }

  /** A limit alone is chained after the find call's closing parenthesis. */
  lemma LimitOnly(ns: string, q: Query, n: int)
    ensures GetShellJS(ns, q.(limit := Some(n), skip := None))
         == GetShellJS(ns, q.(limit := None, skip := None)) + Call("limit", n)
  {
  }

  /** Limit and skip are chained after the find call, `.limit(n)` always before `.skip(n)`. */
  lemma LimitPrecedesSkip(ns: string, q: Query)
    requires q.limit.Some? && q.skip.Some?
    ensures var r := GetShellJS(ns, q);
            var tail := Call("limit", q.limit.value) + Call("skip", q.skip.value);
            |r| >= |tail| && r[|r| - |tail|..] == tail
            && r[..|r| - |tail|] == GetShellJS(ns, q.(limit := None, skip := None))
  {
    var head := GetShellJS(ns, q.(limit := None, skip := None));
    var limit, skip := Call("limit", q.limit.value), Call("skip", q.skip.value);
    assert head == FindCall(ns, q) + "";
    assert GetShellJS(ns, q) == FindCall(ns, q) + (limit + skip);
    SplitAt(FindCall(ns, q), limit, skip);
  }

  /** Splitting `head + a + b` after `head`. */
  lemma SplitAt(head: string, a: string, b: string)
    ensures var r := head + a + b;
            |r| >= |a + b| && r[|r| - |a + b|..] == a + b && r[..|r| - |a + b|] == head
  {
    var r := head + a + b;
    assert r == head + (a + b);
  }

  const People: string := "test.people"
  const ArloFilter: string := "{name: 'Arlo'}"
  const NameProjection: string := "{name: 1}"

  lemma PeopleNamespace()
    ensures CollectionName(People) == "people"
  {
    NamespaceSplit("test", "people");
    assert "test" + "." + "people" == People;
  }

  // The expected texts, assembled from their pieces a few at a time.

  lemma FindText()
    ensures "db." + "people" + ".find(\n  " == "db.people.find(\n  "
  {
    var r := "db." + "people" + ".find(\n  ";
    var lit := "db.people.find(\n  ";
    forall i | 0 <= i < |lit| ensures r[i] == lit[i] { }
  }

  lemma FindFilterText()
    ensures "db." + "people" + ".find(\n  " + ArloFilter == "db.people.find(\n  {name: 'Arlo'}"
  {
    FindText();
    var r := "db.people.find(\n  " + "{name: 'Arlo'}";
    var lit := "db.people.find(\n  {name: 'Arlo'}";
    forall i | 0 <= i < |lit| ensures r[i] == lit[i] { }
  }

  lemma SimpleText()
    ensures "db.people.find(\n  {name: 'Arlo'}" + "\n)" == "db.people.find(\n  {name: 'Arlo'}\n)"
  {
    var r := "db.people.find(\n  {name: 'Arlo'}" + "\n)";
    var lit := "db.people.find(\n  {name: 'Arlo'}\n)";
    forall i | 0 <= i < |lit| ensures r[i] == lit[i] { }
  }

  lemma ProjectionTailText()
    ensures ",\n  " + NameProjection + "\n)" == ",\n  {name: 1}\n)"
  {
    var r := ",\n  " + NameProjection + "\n)";
    var lit := ",\n  {name: 1}\n)";
    forall i | 0 <= i < |lit| ensures r[i] == lit[i] { }
  }

  lemma ProjectionText()
    ensures "db.people.find(\n  {name: 'Arlo'}" + ",\n  {name: 1}\n)" == "db.people.find(\n  {name: 'Arlo'},\n  {name: 1}\n)"
  {
    var r := "db.people.find(\n  {name: 'Arlo'}" + ",\n  {name: 1}\n)";
    var lit := "db.people.find(\n  {name: 'Arlo'},\n  {name: 1}\n)";
    forall i | 0 <= i < |lit| ensures r[i] == lit[i] { }
  }

  lemma LimitText()
    ensures "db.people.find(\n  {name: 'Arlo'},\n  {name: 1}\n)" + ".limit(100)"
         == "db.people.find(\n  {name: 'Arlo'},\n  {name: 1}\n).limit(100)"
  {
    var r := "db.people.find(\n  {name: 'Arlo'},\n  {name: 1}\n)" + ".limit(100)";
    var lit := "db.people.find(\n  {name: 'Arlo'},\n  {name: 1}\n).limit(100)";
    forall i | 0 <= i < |lit| ensures r[i] == lit[i] { }
  }

  lemma SkipText()
    ensures "db.people.find(\n  {name: 'Arlo'},\n  {name: 1}\n).limit(100)" + ".skip(1)"
         == "db.people.find(\n  {name: 'Arlo'},\n  {name: 1}\n).limit(100).skip(1)"
  {
    var r := "db.people.find(\n  {name: 'Arlo'},\n  {name: 1}\n).limit(100)" + ".skip(1)";
    var lit := "db.people.find(\n  {name: 'Arlo'},\n  {name: 1}\n).limit(100).skip(1)";
    forall i | 0 <= i < |lit| ensures r[i] == lit[i] { }
  }

  lemma CallText()
    ensures Call("limit", 100) == ".limit(100)" && Call("skip", 1) == ".skip(1)"
  {
    assert DecimalText.NatToString(10) == "10";
    assert DecimalText.IntToString(100) == "100";
    assert DecimalText.IntToString(1) == "1";
  }

  /** Shell-rendering test: a simple query. */
  lemma SimpleQueryPinned()
    ensures GetShellJS(People, Query(ArloFilter, None, None, None))
         == "db.people.find(\n  {name: 'Arlo'}\n)"
  {
    PeopleNamespace();
    FindFilterText();
    SimpleText();
  }

  /** Shell-rendering test: a query with a projection. */
  lemma ProjectionQueryPinned()
    ensures GetShellJS(People, Query(ArloFilter, Some(NameProjection), None, None))
         == "db.people.find(\n  {name: 'Arlo'},\n  {name: 1}\n)"
  {
    PeopleNamespace();
    FindFilterText();
    ProjectionTailText();
    ProjectionText();
    var head := "db.people.find(\n  {name: 'Arlo'}";
    assert GetShellJS(People, Query(ArloFilter, Some(NameProjection), None, None))
        == head + ",\n  " + NameProjection + "\n)";
  }

  /** Shell-rendering test: a projection and a limit of 100. */
  lemma LimitQueryPinned()
    ensures GetShellJS(People, Query(ArloFilter, Some(NameProjection), Some(100), None))
         == "db.people.find(\n  {name: 'Arlo'},\n  {name: 1}\n).limit(100)"
  {
    ProjectionQueryPinned();
    CallText();
    LimitText();
  }

  /** Shell-rendering test: a limit of 100 and a skip of 1; the limit comes first. */
  lemma LimitSkipQueryPinned()
    ensures GetShellJS(People, Query(ArloFilter, Some(NameProjection), Some(100), Some(1)))
         == "db.people.find(\n  {name: 'Arlo'},\n  {name: 1}\n).limit(100).skip(1)"
  {
    LimitQueryPinned();
    CallText();
    SkipText();
  }
}

/** The two stores: a disk of markdown pages and the four tables derived from it. */
module Model {

  datatype Option<+T> = None | Some(value: T)

  datatype Kind = Entity | Concept | Source | Synthesis | Index

  /** An edge; `tag` is the label column. */
  datatype Link = Link(target: string, tag: Option<string>, viaSource: Option<string>)

  /** A claim; `detail` stands for every field other than its id. */
  datatype Claim = Claim(id: string, detail: string)

  /** A validated page: the frontmatter keys the server reads, the body, and `rest` for every other key. */
  datatype Page = Page(
    id: string, kind: Kind, title: string, body: string, aliases: seq<string>,
    linksOut: seq<Link>, claims: seq<Claim>, domains: seq<string>,
    glossary: bool, isDomain: bool, rest: string)

  /** The bytes of a file together with what they parse to.
      Different byte strings may parse to the same page (`raw` tells them apart) or to nothing.
      The value itself serves as its content hash, so hashing is injective. */
  datatype Bytes = Bytes(raw: string, page: Option<Page>)

  type Files = map<string, Bytes>

  /** What the serializer writes for a page; it parses back to that page. */
  function Print(page: Page): Bytes
  {
    Bytes("", Some(page))
  }

  predicate Parses(files: Files, path: string)
  {
    path in files && files[path].page.Some?
  }

  function PageAt(files: Files, path: string): Page
    requires Parses(files, path)
  {
    files[path].page.value
  }

  /** The vector of a text under a model version: any embedder is a function of these two. */
  datatype Embedding = Embedding(text: string, modelVersion: string)

  datatype PageRow = PageRow(
    path: string, kind: Kind, title: string, body: string, frontmatter: Page, contentHash: Bytes,
    createdAt: Option<int>, updatedAt: int, aliases: seq<string>)

  /** A row of the `links` (owner = from_id) or `claims` (owner = page_id) table. */
  datatype Row<+T> = Row(owner: string, value: T)

  /** `pages` and `embeddings` are upserted by key; `links` and `claims` are row lists in scan order. */
  datatype Tables = Tables(
    pages: map<string, PageRow>, embeddings: map<string, Embedding>,
    links: seq<Row<Link>>, claims: seq<Row<Claim>>)

  const NO_TABLES := Tables(map[], map[], [], [])
}

/** Row lists owned by pages: what a `delete(owner = id)` and an `add` leave behind. */
module OwnedRows {
  import opened Model
  import opened Selections

  function OwnedBy<T>(rows: seq<Row<T>>, id: string): seq<T>
  {
    if rows == [] then []
    else
      var last := rows[|rows| - 1];
      OwnedBy(rows[..|rows| - 1], id) + if last.owner == id then [last.value] else []
  }

  function Without<T>(rows: seq<Row<T>>, ids: set<string>): seq<Row<T>>
  {
    if rows == [] then []
    else
      var last := rows[|rows| - 1];
      Without(rows[..|rows| - 1], ids) + if last.owner in ids then [] else [last]
  }

  function Rows<T>(id: string, values: seq<T>): seq<Row<T>>
  {
    if values == [] then []
    else Rows(id, values[..|values| - 1]) + [Row(id, values[|values| - 1])]
  }

  lemma {:induction false} OwnedByAppend<T>(a: seq<Row<T>>, b: seq<Row<T>>, id: string)
    ensures OwnedBy(a + b, id) == OwnedBy(a, id) + OwnedBy(b, id)
    decreases |b|
  {
    if b == [] {
      assert a + b == a;
    } else {
      assert (a + b)[..|a + b| - 1] == a + b[..|b| - 1];
      OwnedByAppend(a, b[..|b| - 1], id);
    }
  }

  lemma OwnedByOneMore<T>(rows: seq<Row<T>>, r: Row<T>, id: string)
    ensures OwnedBy(rows + [r], id) == OwnedBy(rows, id) + if r.owner == id then [r.value] else []
  {
    assert (rows + [r])[..|rows|] == rows;
  }

  lemma {:induction false} OwnedByRows<T>(owner: string, values: seq<T>, id: string)
    ensures OwnedBy(Rows(owner, values), id) == if id == owner then values else []
    decreases |values|
  {
    if values == [] {
      assert Rows(owner, values) == [];
    } else {
      var init, last := values[..|values| - 1], values[|values| - 1];
      var rows, r := Rows(owner, init), Row(owner, last);
      assert Rows(owner, values) == rows + [r] && values == init + [last];
      OwnedByRows(owner, init, id);
      OwnedByOneMore(rows, r, id);
    }
  }

  lemma {:induction false} OwnedByWithout<T>(rows: seq<Row<T>>, ids: set<string>, id: string)
    ensures OwnedBy(Without(rows, ids), id) == if id in ids then [] else OwnedBy(rows, id)
    decreases |rows|
  {
    if rows != [] {
      var init, last := rows[..|rows| - 1], rows[|rows| - 1];
      OwnedByWithout(init, ids, id);
      var kept := if last.owner in ids then [] else [last];
      OwnedByAppend(Without(init, ids), kept, id);
      if kept == [last] {
        assert kept[..0] == [];
        assert OwnedBy(kept, id) == if last.owner == id then [last.value] else [];
      }
    }
  }

  /** Deleting an owner's rows and adding new ones replaces exactly that owner's rows. */
  lemma OwnedByReplace<T>(rows: seq<Row<T>>, owner: string, values: seq<T>, id: string)
    ensures OwnedBy(Without(rows, {owner}) + Rows(owner, values), id)
         == if id == owner then values else OwnedBy(rows, id)
  {
    OwnedByAppend(Without(rows, {owner}), Rows(owner, values), id);
    OwnedByRows(owner, values, id);
    OwnedByWithout(rows, {owner}, id);
  }

  /** Two deletions in a row delete the union. */
  lemma {:induction false} WithoutTwice<T>(rows: seq<Row<T>>, a: set<string>, b: set<string>)
    ensures Without(Without(rows, a), b) == Without(rows, a + b)
    decreases |rows|
  {
    if rows != [] {
      var init, last := rows[..|rows| - 1], rows[|rows| - 1];
      WithoutTwice(init, a, b);
      var w := Without(init, a);
      assert w + [] == w && (w + [last])[..|w|] == w;
    }
  }

  lemma {:induction false} WithoutNone<T>(rows: seq<Row<T>>)
    ensures Without(rows, {}) == rows
    decreases |rows|
  {
    if rows != [] {
      WithoutNone(rows[..|rows| - 1]);
      assert rows == rows[..|rows| - 1] + [rows[|rows| - 1]];
    }
  }

  /** One row for each value, in their order. */
  lemma {:induction false} RowsAre<T>(id: string, values: seq<T>)
    ensures |Rows(id, values)| == |values| && forall i | 0 <= i < |values| :: Rows(id, values)[i] == Row(id, values[i])
    decreases |values|
  {
    if values != [] { RowsAre(id, values[..|values| - 1]); }
  }

  lemma OwnedNext<T>(rows: seq<Row<T>>, last: Row<T>, id: string)
    ensures Rows(id, OwnedBy(rows + [last], id))
         == Rows(id, OwnedBy(rows, id)) + if last.owner == id then [last] else []
  {
    var own := OwnedBy(rows, id);
    OwnedByOneMore(rows, last, id);
    if last.owner == id {
      assert (own + [last.value])[..|own|] == own;
    } else {
      assert own + [] == own;
    }
  }

  /** What an owner has are the rows that name it, in table order. */
  lemma {:induction false} OwnedPicks<T>(rows: seq<Row<T>>, id: string)
    ensures Picks(rows, (set i: nat | i < |rows| && rows[i].owner == id), Rows(id, OwnedBy(rows, id)))
    decreases |rows|
  {
    var at := set i: nat | i < |rows| && rows[i].owner == id;
    if rows == [] {
      PicksOfNone(rows, at);
    } else {
      var init, last := rows[..|rows| - 1], rows[|rows| - 1];
      assert rows == init + [last];
      OwnedPicks(init, id);
      OwnedNext(init, last, id);
      PicksLast(rows, (set i: nat | i < |init| && init[i].owner == id), at, Rows(id, OwnedBy(init, id)));
    }
  }

  /** Deleting by owner keeps the other rows, in table order. */
  lemma {:induction false} WithoutPicks<T>(rows: seq<Row<T>>, ids: set<string>)
    ensures Picks(rows, (set i: nat | i < |rows| && rows[i].owner !in ids), Without(rows, ids))
    decreases |rows|
  {
    var at := set i: nat | i < |rows| && rows[i].owner !in ids;
    if rows == [] {
      PicksOfNone(rows, at);
    } else {
      var init := rows[..|rows| - 1];
      WithoutPicks(init, ids);
      PicksLast(rows, (set i: nat | i < |init| && init[i].owner !in ids), at, Without(init, ids));
    }
  }

  lemma {:induction false} CountInOwned<T>(rows: seq<Row<T>>, owner: string, value: T)
    ensures multiset(rows)[Row(owner, value)] == multiset(OwnedBy(rows, owner))[value]
    decreases |rows|
  {
    if rows != [] {
      var init, last := rows[..|rows| - 1], rows[|rows| - 1];
      CountInOwned(init, owner, value);
      assert rows == init + [last];
    }
  }

  /** A table is determined, as a bag, by what each page owns in it. */
  lemma OwnersDetermineTheTable<T>(a: seq<Row<T>>, b: seq<Row<T>>)
    requires forall id :: OwnedBy(a, id) == OwnedBy(b, id)
    ensures multiset(a) == multiset(b)
  {
    forall r: Row<T> ensures multiset(a)[r] == multiset(b)[r] {
      CountInOwned(a, r.owner, r.value);
      CountInOwned(b, r.owner, r.value);
    }
  }
}

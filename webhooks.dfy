/**
  The `webhooks` table of server/index.ts: rows `(id, url)` with a unique
  url and AUTOINCREMENT ids, plus the validation of the `url` field of a
  register or delete request. The SQL engine itself is not modelled; the
  table is a sequence of rows kept in rowid order and a counter that plays
  the part of SQLite's `sqlite_sequence` entry.
*/
module Webhooks {
  import opened Wrappers

  /** One subscription row. `created_at` is not modelled. */
  datatype Row = Row(id: nat, url: string)

  /** The `url` member of a request body: missing (or `null`/`undefined`), a string, or any other JSON value. */
  datatype Field = Absent | Str(s: string) | NotStr

  /** A request body: it failed to parse as JSON, or it parsed and has a `url` field. */
  datatype Body = Malformed | Json(url: Field)

  /** `!url || typeof url !== "string"` rejects: the url is accepted only as a non-empty string. */
  function ValidateUrl(f: Field): (r: Option<string>)
    ensures r.Some? <==> f.Str? && f.s != ""
    ensures r.Some? ==> r.value == f.s
  {
    match f
    case Str(s) => if s == "" then None else Some(s)
    case _ => None
  }

  /** The urls of `rows`, row by row (the `.map((r) => r.url)` of `getWebhookUrls`). */
  function UrlsOf(rows: seq<Row>): (urls: seq<string>)
    ensures |urls| == |rows|
    ensures forall i :: 0 <= i < |rows| ==> urls[i] == rows[i].url
  {
    seq(|rows|, i requires 0 <= i < |rows| => rows[i].url)
  }

  /** Ids strictly increase along `rows`: the order of `ORDER BY id`. */
  ghost predicate IncreasingIds(rows: seq<Row>)
  {
    forall i, j :: 0 <= i < j < |rows| ==> rows[i].id < rows[j].id
  }

  /** No url appears in two rows (the UNIQUE constraint). */
  ghost predicate UniqueUrls(rows: seq<Row>)
  {
    forall i, j :: 0 <= i < j < |rows| ==> rows[i].url != rows[j].url
  }

  /** `rows` without the rows whose url is `url` (`DELETE FROM webhooks WHERE url = ?`). */
  function Without(rows: seq<Row>, url: string): (r: seq<Row>)
    ensures |r| <= |rows|
    ensures forall i :: 0 <= i < |r| ==> r[i].url != url
  {
    if rows == [] then []
    else (if rows[0].url == url then [] else [rows[0]]) + Without(rows[1..], url)
  }

  /** Deleting an absent url leaves every row as it was. */
  lemma {:induction false} WithoutAbsent(rows: seq<Row>, url: string)
    requires url !in UrlsOf(rows)
    ensures Without(rows, url) == rows
  {
    if rows != [] {
      assert UrlsOf(rows)[0] == rows[0].url;
      assert UrlsOf(rows[1..]) == UrlsOf(rows)[1..];
      WithoutAbsent(rows[1..], url);
      assert rows == [rows[0]] + rows[1..];
    }
  }

  /** With unique urls, deleting a present url removes exactly its row and keeps the others in place. */
  lemma {:induction false} WithoutRemovesOneRow(rows: seq<Row>, url: string, k: nat)
    requires UniqueUrls(rows)
    requires k < |rows| && rows[k].url == url
    ensures Without(rows, url) == rows[..k] + rows[k + 1..]
  {
    if k == 0 {
      assert forall i :: 0 <= i < |rows| - 1 ==> UrlsOf(rows[1..])[i] == rows[i + 1].url != url;
      WithoutAbsent(rows[1..], url);
    } else {
      assert UniqueUrls(rows[1..]) by {
        forall i, j | 0 <= i < j < |rows[1..]| ensures rows[1..][i].url != rows[1..][j].url {
          assert rows[1..][i] == rows[i + 1] && rows[1..][j] == rows[j + 1];
        }
      }
      assert rows[0].url != url;
      WithoutRemovesOneRow(rows[1..], url, k - 1);
      assert rows[..k] == [rows[0]] + rows[1..][..k - 1];
      assert rows[k + 1..] == rows[1..][k..];
    }
  }

  /** Removing the row at `k` keeps ids increasing and urls unique, and keeps only rows that were there. */
  lemma RemoveAtKeepsOrder(rows: seq<Row>, k: nat)
    requires IncreasingIds(rows) && UniqueUrls(rows) && k < |rows|
    ensures var r := rows[..k] + rows[k + 1..];
            IncreasingIds(r) && UniqueUrls(r) && forall i :: 0 <= i < |r| ==> r[i] in rows
  {
    var r := rows[..k] + rows[k + 1..];
    assert forall i :: 0 <= i < |r| ==> r[i] == rows[if i < k then i else i + 1];
  }

  datatype InsertResult = Inserted(id: nat) | Conflict

  /** The persisted table. `issued` records every id ever handed out, deleted rows' ids included. */
  class WebhookTable {
    var rows: seq<Row>
    var lastId: nat
    ghost var issued: set<nat>

    ghost predicate Valid()
      reads this
    {
      && IncreasingIds(rows)
      && UniqueUrls(rows)
      && (forall i :: 0 <= i < |rows| ==> rows[i].id in issued)
      && (forall n :: n in issued ==> 0 < n <= lastId)
    }

    /** A freshly created table (`CREATE TABLE IF NOT EXISTS` on a new database). */
    constructor ()
      ensures Valid() && rows == [] && lastId == 0 && issued == {}
    {
      rows, lastId, issued := [], 0, {};
    }

    /**
      `INSERT INTO webhooks (url) VALUES (?)`: a url already present violates
      UNIQUE and changes nothing; otherwise one row is appended with an id
      larger than every id ever issued.
    */
    method Insert(url: string) returns (r: InsertResult)
      requires Valid()
      modifies this
      ensures Valid()
      ensures url in UrlsOf(old(rows)) ==>
                r == Conflict && rows == old(rows) && lastId == old(lastId) && issued == old(issued)
      ensures url !in UrlsOf(old(rows)) ==>
                && r == Inserted(old(lastId) + 1)
                && rows == old(rows) + [Row(r.id, url)]
                && lastId == r.id && issued == old(issued) + {r.id}
      ensures r.Inserted? ==> forall n :: n in old(issued) ==> n < r.id
    {
      if url in UrlsOf(rows) {
        return Conflict;
      }
      assert forall i :: 0 <= i < |rows| ==> rows[i].url != url by {
        forall i | 0 <= i < |rows| ensures rows[i].url != url { assert UrlsOf(rows)[i] == rows[i].url; }
      }
      lastId := lastId + 1;
      rows := rows + [Row(lastId, url)];
      issued := issued + {lastId};
      r := Inserted(lastId);
    }

    /**
      `DELETE FROM webhooks WHERE url = ?`, returning the number of rows changed:
      0 and nothing touched when the url is absent; 1 when it is present, and
      exactly that row is gone.
    */
    method Delete(url: string) returns (changes: nat)
      requires Valid()
      modifies this
      ensures Valid() && lastId == old(lastId) && issued == old(issued)
      ensures url !in UrlsOf(old(rows)) ==> changes == 0 && rows == old(rows)
      ensures url in UrlsOf(old(rows)) ==> changes == 1
      ensures url !in UrlsOf(rows)
      ensures forall k :: 0 <= k < |old(rows)| && old(rows)[k].url == url ==>
                rows == old(rows)[..k] + old(rows)[k + 1..]
    {
      if url !in UrlsOf(rows) {
        WithoutAbsent(rows, url);
        return 0;
      }
      var k :| 0 <= k < |rows| && UrlsOf(rows)[k] == url;
      WithoutRemovesOneRow(rows, url, k);
      assert forall k' :: 0 <= k' < |rows| && rows[k'].url == url ==> k' == k;
      var before := rows;
      rows := Without(rows, url);
      changes := |before| - |rows|;
      RemoveAtKeepsOrder(before, k);
      assert forall i :: 0 <= i < |rows| ==> UrlsOf(rows)[i] != url;
    }

    /** `SELECT id, url, created_at FROM webhooks ORDER BY id`: every row, ids increasing. */
    method List() returns (r: seq<Row>)
      requires Valid()
      ensures r == rows
      ensures IncreasingIds(r) && UniqueUrls(r)
    {
      r := rows;
    }
  }
}

/** The embedding store: one vector per tender in `tender_embeddings`, the
    batch embedder that fills it, the expiry reaper that empties it, and the
    nearest-neighbour search over it. The embedding service and the cosine
    distance are parameters. */
module Embeddings {
  import opened Wrappers
  import opened Text
  import opened Dates
  import opened Models
  import opened Sorting

  /** The length every embedding request asks for (`text-embedding-3-large`). */
  const EmbeddingDimension: nat := 3072

  /** Tenders are sent to the service in groups of at most this many. */
  const MaxBatchSize: nat := 50

  type Vector = seq<real>

  function Zeros(n: nat): (v: Vector)
    ensures |v| == n && forall i :: 0 <= i < n ==> v[i] == 0.0
  {
    seq(n, _ => 0.0)
  }

  /** The embedding service: for a requested dimension and a list of input
      texts, the vectors it returns (one per text when it behaves, each of the
      length it chose), or `None` when the call raises. */
  type Provider = (nat, seq<string>) -> Option<seq<Vector>>

  /** A service that never raises and returns one vector of the requested
      length per input text. */
  ghost predicate Reliable(embed: Provider) {
    forall dim: nat, texts: seq<string> ::
      && embed(dim, texts).Some?
      && |embed(dim, texts).value| == |texts|
      && (forall j :: 0 <= j < |texts| ==> |embed(dim, texts).value[j]| == dim)
  }

  /** The `embedding` column of `tender_embeddings`: absent after `DROP COLUMN`,
      or a pgvector column of a fixed dimension. */
  datatype Column = Dropped | Sized(dim: nat)

  /** The two tables the embedding code touches. Vectors are keyed by the
      tender they belong to: the code never stores two for one tender. */
  datatype Db = Db(tenders: Store, vectors: map<string, Vector>, column: Column)

  /** Every stored vector belongs to a tender and has the column's dimension. */
  predicate Consistent(db: Db) {
    && db.vectors.Keys <= db.tenders.Keys
    && (db.column.Dropped? ==> db.vectors == map[])
    && (db.column.Sized? ==> forall k :: k in db.vectors ==> |db.vectors[k]| == db.column.dim)
  }

  /** Every datetime column of every tender is representable. */
  predicate ValidTenders(db: Db) {
    forall k :: k in db.tenders ==> ValidTender(db.tenders[k])
  }

  /** The vectors `staged` fit the column: pgvector rejects a vector of another
      length, and there is nowhere to store one while the column is dropped. */
  predicate Fits(column: Column, staged: map<string, Vector>) {
    staged == map[] || (column.Sized? && forall k :: k in staged ==> |staged[k]| == column.dim)
  }

  /** `db.session.commit()` after adding the vectors `staged`: all of them are
      stored, or the commit raises and none is. */
  function Commit(db: Db, staged: map<string, Vector>): (r: Option<Db>)
    ensures r.Some? <==> Fits(db.column, staged)
    ensures r.Some? ==> r.value.tenders == db.tenders && r.value.column == db.column
    ensures r.Some? ==> r.value.vectors.Keys == db.vectors.Keys + staged.Keys
    ensures r.Some? ==> forall k :: k in r.value.vectors ==>
      r.value.vectors[k] == if k in staged then staged[k] else db.vectors[k]
  {
    if Fits(db.column, staged) then Some(db.(vectors := db.vectors + staged)) else None
  }

  /** A successful commit keeps the store consistent. */
  lemma CommitKeepsConsistent(db: Db, staged: map<string, Vector>)
    requires Consistent(db) && staged.Keys <= db.tenders.Keys
    requires Commit(db, staged).Some?
    ensures Consistent(Commit(db, staged).value)
  {
  }

  /** `create_embedding`: a zero vector of length 3072 for empty or all-space
      text and whenever the service raises or returns nothing; otherwise the
      service's first vector. */
  function CreateEmbedding(embed: Provider, text: string): (v: Vector)
    ensures Strip(text) == [] ==> v == Zeros(EmbeddingDimension)
    ensures Strip(text) != [] && embed(EmbeddingDimension, [text]).None? ==> v == Zeros(EmbeddingDimension)
    ensures v != Zeros(EmbeddingDimension) ==>
      embed(EmbeddingDimension, [text]).Some? && v in embed(EmbeddingDimension, [text]).value
  {
    if Strip(text) == [] then Zeros(EmbeddingDimension)
    else match embed(EmbeddingDimension, [text])
      case Some(data) => if data == [] then Zeros(EmbeddingDimension) else data[0]
      case None => Zeros(EmbeddingDimension)
  }

  /** With a reliable service every embedding has 3072 entries. */
  lemma CreateEmbeddingHasFullDimension(embed: Provider, text: string)
    requires Reliable(embed)
    ensures |CreateEmbedding(embed, text)| == EmbeddingDimension
  {
    var r := embed(EmbeddingDimension, [text]);
    assert r.Some? && |r.value| == 1 && |r.value[0]| == EmbeddingDimension;
  }

  /** `embed_tender(t)`: nothing when `t` already has a vector; otherwise one
      vector added and committed, `True` returned. A commit that raises is
      rolled back and reported as `False`. */
  function EmbedTender(db: Db, embed: Provider, t: Tender, text: string): (r: (bool, Db))
    ensures t.tenderId in db.vectors ==> r == (false, db)
    ensures r.0 <==> t.tenderId !in db.vectors && Fits(db.column, map[t.tenderId := CreateEmbedding(embed, text)])
    ensures !r.0 ==> r.1 == db
    ensures r.0 ==> r.1.tenders == db.tenders && r.1.column == db.column
    ensures r.0 ==> r.1.vectors == db.vectors[t.tenderId := CreateEmbedding(embed, text)]
    ensures r.0 ==> |r.1.vectors| == |db.vectors| + 1
  {
    if t.tenderId in db.vectors then (false, db)
    else
      var v := CreateEmbedding(embed, text);
      match Commit(db, map[t.tenderId := v])
      case Some(d) =>
        CommitOne(db, t.tenderId, v);
        (true, d)
      case None => (false, db)
  }

  /** Committing one new vector adds exactly that entry. */
  lemma CommitOne(db: Db, id: string, v: Vector)
    requires id !in db.vectors && Commit(db, map[id := v]).Some?
    ensures Commit(db, map[id := v]).value == db.(vectors := db.vectors[id := v])
    ensures |db.vectors[id := v]| == |db.vectors| + 1
  {
    assert db.vectors + map[id := v] == db.vectors[id := v];
  }

  /** With a reliable service and a 3072-wide column, a tender without a vector always gets one. */
  lemma EmbedTenderSucceeds(db: Db, embed: Provider, t: Tender, text: string)
    requires Reliable(embed) && db.column == Sized(EmbeddingDimension)
    requires t.tenderId !in db.vectors
    ensures EmbedTender(db, embed, t, text).0
  {
    CreateEmbeddingHasFullDimension(embed, text);
  }

  /** The deadline is null or strictly after `now`. */
  predicate Live(t: Tender, now: DateTime) {
    t.submissionDeadline.None? || Before(now, t.submissionDeadline.value)
  }

  /** A tender `batch_embed_tenders` may pick at `now`: it has no vector and is live. */
  predicate Eligible(db: Db, id: string, now: DateTime) {
    id in db.tenders && id !in db.vectors && Live(db.tenders[id], now)
  }

  /** The eligible ids in the order the database hands the rows back. */
  function Candidates(db: Db, rows: seq<string>, now: DateTime): (r: seq<string>)
    ensures forall i :: 0 <= i < |r| ==> Eligible(db, r[i], now) && r[i] in rows
    ensures forall i :: 0 <= i < |rows| && Eligible(db, rows[i], now) ==> rows[i] in r
    ensures Distinct(rows) ==> Distinct(r)
    ensures |r| <= |rows|
  {
    if rows == [] then []
    else
      var rest := Candidates(db, rows[1..], now);
      assert forall i :: 0 <= i < |rest| ==> rest[i] in rows[1..];
      if Eligible(db, rows[0], now) then [rows[0]] + rest else rest
  }

  /** The query of `batch_embed_tenders`: the candidates, or the first `limit`
      of them when `limit` is truthy (a limit of 0, like `None`, takes all). */
  function Selection(db: Db, rows: seq<string>, now: DateTime, limit: nat): (r: seq<string>)
    ensures |r| == if limit == 0 then |Candidates(db, rows, now)| else Min(limit, |Candidates(db, rows, now)|)
    ensures r <= Candidates(db, rows, now)
    ensures limit == 0 || |Candidates(db, rows, now)| <= limit ==> r == Candidates(db, rows, now)
  {
    var c := Candidates(db, rows, now);
    if limit > 0 && limit < |c| then c[..limit] else c
  }

  /** The selection is exactly the eligible tenders, at most `limit` of them. */
  lemma SelectionIsEligible(db: Db, rows: seq<string>, now: DateTime, limit: nat, id: string)
    requires Enumerates(rows, db.tenders.Keys)
    ensures id in Selection(db, rows, now, limit) ==> Eligible(db, id, now)
    ensures Eligible(db, id, now) && (limit == 0 || |Candidates(db, rows, now)| <= limit) ==>
      id in Selection(db, rows, now, limit)
    ensures Distinct(Selection(db, rows, now, limit))
  {
    var c := Candidates(db, rows, now);
    var s := Selection(db, rows, now, limit);
    if id in s {
      var i :| 0 <= i < |s| && s[i] == id;
      assert c[i] == id;
    }
    if Eligible(db, id, now) {
      var i :| 0 <= i < |rows| && rows[i] == id;
    }
    assert Distinct(rows);
    assert forall i, j :: 0 <= i < j < |s| ==> s[i] == c[i] && s[j] == c[j];
  }

  /** The selection split into consecutive groups of at most `k`. */
  function Chunks(s: seq<string>, k: nat): (cs: seq<seq<string>>)
    requires k > 0
    ensures forall i :: 0 <= i < |cs| ==> 0 < |cs[i]| <= k
    ensures Flatten(cs) == s
    decreases |s|
  {
    if s == [] then []
    else if |s| <= k then [s]
    else
      assert s == s[..k] + s[k..];
      [s[..k]] + Chunks(s[k..], k)
  }

  function Flatten(cs: seq<seq<string>>): seq<string> {
    if cs == [] then [] else cs[0] + Flatten(cs[1..])
  }

  /** The first `n` ids of `group` paired with the service's vectors: item `j`
      is staged only when the response has a `j`-th vector. */
  function Stage(group: seq<string>, data: seq<Vector>): (m: map<string, Vector>)
    ensures forall k :: k in m ==> exists j :: 0 <= j < |group| && j < |data| && group[j] == k && m[k] == data[j]
    ensures forall j :: 0 <= j < |group| && j < |data| ==> group[j] in m
    decreases |group|
  {
    if group == [] || data == [] then map[]
    else
      var rest := Stage(group[1..], data[1..]);
      assert forall k :: k in rest ==> exists j :: 1 <= j < |group| && j < |data| && group[j] == k && rest[k] == data[j] by {
        forall k | k in rest
          ensures exists j :: 1 <= j < |group| && j < |data| && group[j] == k && rest[k] == data[j]
        {
          var j :| 0 <= j < |group[1..]| && j < |data[1..]| && group[1..][j] == k && rest[k] == data[1..][j];
          assert group[j + 1] == k && data[j + 1] == rest[k];
        }
      }
      assert forall j :: 1 <= j < |group| && j < |data| ==> group[j] in rest by {
        forall j | 1 <= j < |group| && j < |data| ensures group[j] in rest {
          assert group[1..][j - 1] == group[j];
        }
      }
      rest[group[0] := data[0]]
  }

  /** Distinct ids stage exactly `min(|group|, |data|)` vectors. */
  lemma {:induction false} StageSize(group: seq<string>, data: seq<Vector>)
    requires Distinct(group)
    ensures |Stage(group, data)| == Min(|group|, |data|)
    decreases |group|
  {
    if group != [] && data != [] {
      StageSize(group[1..], data[1..]);
    }
  }

  /** The texts of a group's tenders. */
  function Texts(db: Db, textOf: Tender -> string, group: seq<string>): (ts: seq<string>)
    requires forall i :: 0 <= i < |group| ==> group[i] in db.tenders
    ensures |ts| == |group|
  {
    seq(|group|, j requires 0 <= j < |group| => textOf(db.tenders[group[j]]))
  }

  /** Ids that can be embedded: distinct tenders without a vector. */
  predicate Fresh(db: Db, ids: seq<string>) {
    && Distinct(ids)
    && forall i :: 0 <= i < |ids| ==> ids[i] in db.tenders && ids[i] !in db.vectors
  }

  /** The result of embedding some groups: `count` as the source keeps it
      (incremented as each vector is added to the session), the number of
      vectors a commit actually stored, and the database afterwards. */
  datatype Tally = Tally(count: nat, persisted: nat, db: Db)

  /** What a run over `ids` may have done to `db` and reported in `t`: it added
      `t.persisted` vectors, each for one of `ids`, and changed nothing else. */
  ghost predicate Adds(db: Db, ids: seq<string>, t: Tally) {
    && t.db.tenders == db.tenders && t.db.column == db.column
    && t.persisted <= t.count <= |ids|
    && (forall k :: k in db.vectors ==> k in t.db.vectors && t.db.vectors[k] == db.vectors[k])
    && (forall k :: k in t.db.vectors && k !in db.vectors ==> k in ids)
    && |t.db.vectors| == |db.vectors| + t.persisted
    && (Consistent(db) ==> Consistent(t.db))
  }

  /** One group: a single service call; when it raises the group is rolled
      back and counts nothing. Otherwise each item with a vector in the
      response is staged and counted, then the group is committed; a commit
      that raises is rolled back, but its items stay counted. */
  function EmbedGroup(db: Db, embed: Provider, textOf: Tender -> string, group: seq<string>, dim: nat)
    : (r: Tally)
    requires Fresh(db, group)
    ensures Adds(db, group, r)
    ensures embed(dim, Texts(db, textOf, group)).None? ==> r == Tally(0, 0, db)
    ensures embed(dim, Texts(db, textOf, group)).Some? ==>
      r.count == Min(|group|, |embed(dim, Texts(db, textOf, group)).value|)
    ensures embed(dim, Texts(db, textOf, group)).Some? ==>
      var staged := Stage(group, embed(dim, Texts(db, textOf, group)).value);
      && (Commit(db, staged).Some? ==> r.db == Commit(db, staged).value && r.persisted == r.count)
      && (Commit(db, staged).None? ==> r.db == db && r.persisted == 0)
  {
    match embed(dim, Texts(db, textOf, group))
    case None => Tally(0, 0, db)
    case Some(data) =>
      var staged := Stage(group, data);
      var n := Min(|group|, |data|);
      StageSize(group, data);
      match Commit(db, staged)
      case Some(d) => CommitAdds(db, group, staged); Tally(n, n, d)
      case None => Tally(n, 0, db)
  }

  /** A commit of vectors staged for ids of `group` that have none adds
      exactly those vectors. */
  lemma CommitAdds(db: Db, group: seq<string>, staged: map<string, Vector>)
    requires Commit(db, staged).Some? && Fresh(db, group)
    requires forall k :: k in staged ==> k in group
    requires |staged| <= |group|
    ensures Adds(db, group, Tally(|staged|, |staged|, Commit(db, staged).value))
  {
    var d := Commit(db, staged).value;
    assert staged.Keys !! db.vectors.Keys;
    assert d.vectors.Keys == db.vectors.Keys + staged.Keys;
    if Consistent(db) {
      CommitKeepsConsistent(db, staged);
    }
  }

  /** `Fresh` ids stay fresh in parts, and the parts share no id. */
  lemma FreshSplit(db: Db, a: seq<string>, b: seq<string>)
    requires Fresh(db, a + b)
    ensures Fresh(db, a) && Fresh(db, b)
    ensures forall i, j :: 0 <= i < |a| && 0 <= j < |b| ==> a[i] != b[j]
  {
    assert forall i :: 0 <= i < |a| ==> (a + b)[i] == a[i];
    assert forall j :: 0 <= j < |b| ==> (a + b)[|a| + j] == b[j];
  }

  /** Embedding `a` leaves every id of a disjoint `b` without a vector. */
  lemma FreshAfterAdds(db: Db, a: seq<string>, t: Tally, b: seq<string>)
    requires Fresh(db, b) && Adds(db, a, t)
    requires forall i, j :: 0 <= i < |a| && 0 <= j < |b| ==> a[i] != b[j]
    ensures Fresh(t.db, b)
  {
  }

  /** Two runs in sequence add what each adds. */
  lemma AddsCompose(db: Db, a: seq<string>, t1: Tally, b: seq<string>, t2: Tally)
    requires Adds(db, a, t1) && Adds(t1.db, b, t2)
    ensures Adds(db, a + b, Tally(t1.count + t2.count, t1.persisted + t2.persisted, t2.db))
  {
    forall k | k in t2.db.vectors && k !in db.vectors
      ensures k in a + b
    {
      if k in t1.db.vectors {
        assert k in a;
      } else {
        assert k in b;
      }
    }
  }

  /** Groups in order, each on the database the previous one left. */
  function EmbedGroups(db: Db, embed: Provider, textOf: Tender -> string, groups: seq<seq<string>>, dim: nat)
    : (r: Tally)
    requires Fresh(db, Flatten(groups))
    ensures Adds(db, Flatten(groups), r)
    decreases |groups|
  {
    if groups == [] then Tally(0, 0, db)
    else
      var rest := Flatten(groups[1..]);
      FreshSplit(db, groups[0], rest);
      var first := EmbedGroup(db, embed, textOf, groups[0], dim);
      FreshAfterAdds(db, groups[0], first, rest);
      var later := EmbedGroups(first.db, embed, textOf, groups[1..], dim);
      AddsCompose(db, groups[0], first, rest, later);
      Tally(first.count + later.count, first.persisted + later.persisted, later.db)
  }

  /** `batch_embed_tenders(limit)` at `now`, requesting vectors of length `dim`
      (the source always requests 3072; see `BatchEmbedTenders`). */
  function BatchEmbed(db: Db, embed: Provider, textOf: Tender -> string, rows: seq<string>,
                      now: DateTime, limit: nat, dim: nat): (r: Tally)
    requires Enumerates(rows, db.tenders.Keys)
    ensures Adds(db, Selection(db, rows, now, limit), r)
  {
    var selected := Selection(db, rows, now, limit);
    SelectionFresh(db, rows, now, limit);
    assert MaxBatchSize > 0;
    EmbedGroups(db, embed, textOf, Chunks(selected, MaxBatchSize), dim)
  }

  /** `batch_embed_tenders(limit)` as written: every request asks for 3072 entries. */
  function BatchEmbedTenders(db: Db, embed: Provider, textOf: Tender -> string, rows: seq<string>,
                             now: DateTime, limit: nat): (r: Tally)
    requires Enumerates(rows, db.tenders.Keys)
    ensures Adds(db, Selection(db, rows, now, limit), r)
    ensures r.count <= |Selection(db, rows, now, limit)|
    ensures r.persisted <= r.count
  {
    BatchEmbed(db, embed, textOf, rows, now, limit, EmbeddingDimension)
  }

  lemma SelectionFresh(db: Db, rows: seq<string>, now: DateTime, limit: nat)
    requires Enumerates(rows, db.tenders.Keys)
    ensures Fresh(db, Selection(db, rows, now, limit))
  {
    var s := Selection(db, rows, now, limit);
    forall i | 0 <= i < |s| ensures s[i] in db.tenders && s[i] !in db.vectors {
      SelectionIsEligible(db, rows, now, limit, s[i]);
    }
    SelectionIsEligible(db, rows, now, limit, "");
  }

  /** In `d`, the `i`-th id of `g` holds the `i`-th vector the service returned
      when asked for the texts of `g`'s tenders in `db`. */
  ghost predicate Served(db: Db, embed: Provider, textOf: Tender -> string, dim: nat, g: seq<string>, d: Db) {
    && (forall i :: 0 <= i < |g| ==> g[i] in db.tenders)
    && embed(dim, Texts(db, textOf, g)).Some?
    && |embed(dim, Texts(db, textOf, g)).value| == |g|
    && forall i :: 0 <= i < |g| ==> g[i] in d.vectors && d.vectors[g[i]] == embed(dim, Texts(db, textOf, g)).value[i]
  }

  /** A later run that only adds vectors keeps what an earlier group was served. */
  lemma ServedKept(db: Db, embed: Provider, textOf: Tender -> string, dim: nat, g: seq<string>, d: Db,
                   ids: seq<string>, t: Tally)
    requires Served(db, embed, textOf, dim, g, d) && Adds(d, ids, t)
    ensures Served(db, embed, textOf, dim, g, t.db)
  {
  }

  /** The texts of a group depend only on the tenders. */
  lemma ServedOnSameTenders(db: Db, db': Db, embed: Provider, textOf: Tender -> string, dim: nat,
                            g: seq<string>, d: Db)
    requires db.tenders == db'.tenders && Served(db', embed, textOf, dim, g, d)
    ensures Served(db, embed, textOf, dim, g, d)
  {
    assert Texts(db, textOf, g) == Texts(db', textOf, g);
  }

  /** One group, asked for the column's dimension of a reliable service, is
      stored in full, each id with the service's vector for its text. */
  lemma GroupStoredWhenDimensionsAgree(db: Db, embed: Provider, textOf: Tender -> string, g: seq<string>)
    requires Reliable(embed) && db.column.Sized? && Fresh(db, g)
    ensures var r := EmbedGroup(db, embed, textOf, g, db.column.dim);
      && r.persisted == r.count == |g|
      && Served(db, embed, textOf, db.column.dim, g, r.db)
  {
    var dim := db.column.dim;
    var data := embed(dim, Texts(db, textOf, g)).value;
    assert |data| == |g|;
    var staged := Stage(g, data);
    assert forall k :: k in staged ==> |staged[k]| == dim;
    var d := Commit(db, staged).value;
    forall i | 0 <= i < |g| ensures g[i] in d.vectors && d.vectors[g[i]] == data[i] {
      StagedAt(g, data, i);
    }
  }

  /** With distinct ids, the `i`-th id is staged with the `i`-th vector. */
  lemma StagedAt(group: seq<string>, data: seq<Vector>, i: nat)
    requires Distinct(group) && i < |group| && i < |data|
    ensures group[i] in Stage(group, data) && Stage(group, data)[group[i]] == data[i]
  {
    var m := Stage(group, data);
    var j :| 0 <= j < |group| && j < |data| && group[j] == group[i] && m[group[i]] == data[j];
  }

  /** With a reliable service asked for the column's dimension, every group is
      stored: nothing counted is lost and every id gets a vector. */
  lemma {:induction false} GroupsStoredWhenDimensionsAgree(
    db: Db, embed: Provider, textOf: Tender -> string, groups: seq<seq<string>>)
    requires Reliable(embed) && db.column.Sized? && Fresh(db, Flatten(groups))
    ensures var r := EmbedGroups(db, embed, textOf, groups, db.column.dim);
      && r.persisted == r.count == |Flatten(groups)|
      && (forall k :: k in Flatten(groups) ==> k in r.db.vectors)
      && forall i :: 0 <= i < |groups| ==> Served(db, embed, textOf, db.column.dim, groups[i], r.db)
    decreases |groups|
  {
    if groups != [] {
      var dim := db.column.dim;
      var g := groups[0];
      var rest := Flatten(groups[1..]);
      EmbedGroupsStep(db, embed, textOf, groups, dim);
      EmbedGroupsUnfold(db, embed, textOf, groups, dim);
      var first := EmbedGroup(db, embed, textOf, g, dim);
      GroupStoredWhenDimensionsAgree(db, embed, textOf, g);
      GroupsStoredWhenDimensionsAgree(first.db, embed, textOf, groups[1..]);
      var later := EmbedGroups(first.db, embed, textOf, groups[1..], dim);
      AddsKeeps(first.db, rest, later);
      forall k | k in Flatten(groups) ensures k in later.db.vectors {
        assert k in g || k in rest;
      }
      forall i | 0 <= i < |groups| ensures Served(db, embed, textOf, dim, groups[i], later.db) {
        if i == 0 {
          ServedKept(db, embed, textOf, dim, g, first.db, rest, later);
        } else {
          assert groups[i] == groups[1..][i - 1];
          ServedOnSameTenders(db, first.db, embed, textOf, dim, groups[i], later.db);
        }
      }
    }
  }

  /** A non-empty run of groups is its first group followed by the rest, which
      stay fresh after the first. */
  lemma EmbedGroupsStep(db: Db, embed: Provider, textOf: Tender -> string, groups: seq<seq<string>>, dim: nat)
    requires Fresh(db, Flatten(groups)) && groups != []
    ensures Flatten(groups) == groups[0] + Flatten(groups[1..])
    ensures Fresh(db, groups[0])
    ensures var first := EmbedGroup(db, embed, textOf, groups[0], dim);
      && Adds(db, groups[0], first)
      && Fresh(first.db, Flatten(groups[1..]))
  {
    var rest := Flatten(groups[1..]);
    FreshSplit(db, groups[0], rest);
    var first := EmbedGroup(db, embed, textOf, groups[0], dim);
    FreshAfterAdds(db, groups[0], first, rest);
  }

  /** The run over a non-empty list of groups is the first group's tally
      followed by the run over the rest. */
  lemma EmbedGroupsUnfold(db: Db, embed: Provider, textOf: Tender -> string, groups: seq<seq<string>>, dim: nat)
    requires Fresh(db, Flatten(groups)) && groups != [] && Fresh(db, groups[0])
    requires Fresh(EmbedGroup(db, embed, textOf, groups[0], dim).db, Flatten(groups[1..]))
    ensures var first := EmbedGroup(db, embed, textOf, groups[0], dim);
      EmbedGroups(db, embed, textOf, groups, dim)
      == var later := EmbedGroups(first.db, embed, textOf, groups[1..], dim);
         Tally(first.count + later.count, first.persisted + later.persisted, later.db)
  {
  }

  /** A run that adds vectors keeps every vector already stored. */
  lemma AddsKeeps(db: Db, ids: seq<string>, t: Tally)
    requires Adds(db, ids, t)
    ensures forall k :: k in db.vectors ==> k in t.db.vectors
  {
  }

  /** With a reliable service and a column whose dimension differs from the one
      requested, every commit raises: nothing is stored, yet every selected
      tender is counted. */
  lemma {:induction false} GroupsLostWhenDimensionsDiffer(
    db: Db, embed: Provider, textOf: Tender -> string, groups: seq<seq<string>>, dim: nat)
    requires Reliable(embed) && db.column.Sized? && db.column.dim != dim
    requires Fresh(db, Flatten(groups))
    requires forall i :: 0 <= i < |groups| ==> groups[i] != []
    ensures var r := EmbedGroups(db, embed, textOf, groups, dim);
      r.db == db && r.persisted == 0 && r.count == |Flatten(groups)|
    decreases |groups|
  {
    if groups != [] {
      var g := groups[0];
      var rest := Flatten(groups[1..]);
      FreshSplit(db, g, rest);
      var data := embed(dim, Texts(db, textOf, g)).value;
      assert g[0] in Stage(g, data);
      assert !Fits(db.column, Stage(g, data));
      GroupsLostWhenDimensionsDiffer(db, embed, textOf, groups[1..], dim);
    }
  }

  /** With the column at 3072 and a reliable service, `batch_embed_tenders`
      stores a vector for every selected tender and its count is exact: the
      selection is sent in groups of 50, and each id of a group gets the
      vector the service returned at its position for that group's texts. */
  lemma BatchEmbedStoresSelection(db: Db, embed: Provider, textOf: Tender -> string, rows: seq<string>,
                                  now: DateTime, limit: nat)
    requires Enumerates(rows, db.tenders.Keys)
    requires Reliable(embed) && db.column == Sized(EmbeddingDimension)
    ensures var r := BatchEmbedTenders(db, embed, textOf, rows, now, limit);
      && r.persisted == r.count == |Selection(db, rows, now, limit)|
      && (forall id :: id in Selection(db, rows, now, limit) ==> id in r.db.vectors)
      && var groups := Chunks(Selection(db, rows, now, limit), MaxBatchSize);
        forall i :: 0 <= i < |groups| ==> Served(db, embed, textOf, EmbeddingDimension, groups[i], r.db)
  {
    var selected := Selection(db, rows, now, limit);
    SelectionFresh(db, rows, now, limit);
    GroupsStoredWhenDimensionsAgree(db, embed, textOf, Chunks(selected, MaxBatchSize));
  }

  /** The count runs ahead of the store: when the column's dimension is not
      3072, a non-empty selection is counted in full and nothing is stored. */
  lemma BatchCountExceedsStored(db: Db, embed: Provider, textOf: Tender -> string, rows: seq<string>,
                                now: DateTime, limit: nat)
    requires Enumerates(rows, db.tenders.Keys)
    requires Reliable(embed) && db.column.Sized? && db.column.dim != EmbeddingDimension
    ensures var r := BatchEmbedTenders(db, embed, textOf, rows, now, limit);
      && r.db == db && r.persisted == 0
      && r.count == |Selection(db, rows, now, limit)|
  {
    var selected := Selection(db, rows, now, limit);
    SelectionFresh(db, rows, now, limit);
    GroupsLostWhenDimensionsDiffer(db, embed, textOf, Chunks(selected, MaxBatchSize), EmbeddingDimension);
  }

  /** The deadline is strictly before `now`. */
  predicate Expired(t: Tender, now: DateTime) {
    t.submissionDeadline.Some? && Before(t.submissionDeadline.value, now)
  }

  /** A stored vector whose tender has expired at `now`: the join with `tenders`. */
  predicate Reaped(db: Db, id: string, now: DateTime) {
    id in db.vectors && id in db.tenders && Expired(db.tenders[id], now)
  }

  /** `cleanup_expired_embeddings`: deletes exactly the vectors whose tender's
      deadline is strictly before `now` and returns how many. Querying the
      vector table needs the `embedding` column. */
  function Cleanup(db: Db, now: DateTime): (r: (nat, Db))
    requires db.column.Sized?
    ensures r.1.tenders == db.tenders && r.1.column == db.column
    ensures forall k :: k in r.1.vectors <==> k in db.vectors && !Reaped(db, k, now)
    ensures forall k :: k in r.1.vectors ==> r.1.vectors[k] == db.vectors[k]
    ensures r.0 + |r.1.vectors| == |db.vectors|
    ensures Consistent(db) ==> Consistent(r.1)
  {
    var gone := set k | k in db.vectors && Reaped(db, k, now);
    var kept := map k | k in db.vectors && !Reaped(db, k, now) :: db.vectors[k];
    PartitionSize(db.vectors.Keys, kept.Keys, gone);
    (|gone|, db.(vectors := kept))
  }

  lemma PartitionSize<K>(all: set<K>, kept: set<K>, gone: set<K>)
    requires forall k :: k in all <==> k in kept || k in gone
    requires forall k :: k in kept ==> k !in gone
    ensures |kept| + |gone| == |all|
  {
    assert kept + gone == all;
    assert kept !! gone;
  }

  /** After cleanup no stored vector belongs to an expired tender, so a second
      cleanup at the same `now` deletes nothing; vectors of live tenders and of
      tenders whose deadline is exactly `now` stay. */
  lemma CleanupIsIdempotent(db: Db, now: DateTime)
    requires db.column.Sized?
    ensures var d := Cleanup(db, now).1;
      && (forall k :: k in d.vectors ==> !Reaped(d, k, now))
      && Cleanup(d, now) == (0, d)
    ensures forall k :: k in db.vectors && k in db.tenders && !Expired(db.tenders[k], now) ==>
      k in Cleanup(db, now).1.vectors
  {
    var d := Cleanup(db, now).1;
    var e := Cleanup(d, now).1;
    assert e.vectors == d.vectors;
  }

  /** A tender published since 00:00 of the day of `now`. */
  predicate PublishedToday(t: Tender, now: DateTime) {
    t.publicationDate.Some? && NotAfter(StartOfDay(now), t.publicationDate.value)
  }

  /** A tender the search query keeps: live, and with `today_only` published today. */
  predicate Searchable(t: Tender, now: DateTime, todayOnly: bool) {
    Live(t, now) && (todayOnly ==> PublishedToday(t, now))
  }

  /** A stored vector's tender and its cosine distance from the query. */
  datatype Scored = Scored(id: string, distance: real)

  function ScoredId(c: Scored): string {
    c.id
  }

  /** `ORDER BY distance`. */
  predicate ByDistance(a: Scored, b: Scored) {
    a.distance <= b.distance
  }

  lemma ByDistanceIsTotalPreorder()
    ensures TotalPreorder(ByDistance)
  {
  }

  /** The cosine distance between a stored vector and the query vector. */
  type Distance = (Vector, Vector) -> real

  /** The rows of the join that pass the filters, scored, in the order `rows`
      lists the stored vectors. */
  function ScoredRows(db: Db, rows: seq<string>, q: Vector, distance: Distance, now: DateTime,
                      todayOnly: bool): (r: seq<Scored>)
    requires forall i :: 0 <= i < |rows| ==> rows[i] in db.vectors
    ensures forall i :: 0 <= i < |r| ==> (r[i].id in rows && r[i].id in db.vectors && r[i].id in db.tenders
      && Searchable(db.tenders[r[i].id], now, todayOnly)
      && r[i].distance == distance(db.vectors[r[i].id], q))
    ensures forall i :: 0 <= i < |rows| && rows[i] in db.tenders && Searchable(db.tenders[rows[i]], now, todayOnly) ==>
      Scored(rows[i], distance(db.vectors[rows[i]], q)) in r
  {
    if rows == [] then []
    else
      var rest := ScoredRows(db, rows[1..], q, distance, now, todayOnly);
      assert forall i :: 0 <= i < |rest| ==> rest[i].id in rows[1..];
      var id := rows[0];
      if id in db.tenders && Searchable(db.tenders[id], now, todayOnly)
      then [Scored(id, distance(db.vectors[id], q))] + rest
      else rest
  }

  /** Each stored vector is scored at most once. */
  lemma {:induction false} ScoredRowsKeysApart(db: Db, rows: seq<string>, q: Vector, distance: Distance,
                                               now: DateTime, todayOnly: bool)
    requires forall i :: 0 <= i < |rows| ==> rows[i] in db.vectors
    requires Distinct(rows)
    ensures KeysApart(ScoredRows(db, rows, q, distance, now, todayOnly), ScoredId)
  {
    if rows != [] {
      var rest := ScoredRows(db, rows[1..], q, distance, now, todayOnly);
      assert Distinct(rows[1..]);
      ScoredRowsKeysApart(db, rows[1..], q, distance, now, todayOnly);
      assert forall i :: 0 <= i < |rest| ==> rest[i].id != rows[0];
    }
  }

  /** The first `limit` rows by ascending distance (SQL `LIMIT`: 0 gives none). */
  function Ranked(db: Db, rows: seq<string>, q: Vector, distance: Distance, now: DateTime,
                  todayOnly: bool, limit: nat): (r: seq<Scored>)
    requires forall i :: 0 <= i < |rows| ==> rows[i] in db.vectors
    ensures |r| == Min(limit, |ScoredRows(db, rows, q, distance, now, todayOnly)|)
    ensures SortedBy(r, ByDistance)
    ensures forall i :: 0 <= i < |r| ==> r[i] in ScoredRows(db, rows, q, distance, now, todayOnly)
    ensures multiset(r) <= multiset(ScoredRows(db, rows, q, distance, now, todayOnly))
    ensures Distinct(rows) ==> KeysApart(r, ScoredId)
  {
    ByDistanceIsTotalPreorder();
    var all := ScoredRows(db, rows, q, distance, now, todayOnly);
    var r := TopBy(all, ByDistance, limit);
    assert Distinct(rows) ==> KeysApart(r, ScoredId) by {
      if Distinct(rows) {
        ScoredRowsKeysApart(db, rows, q, distance, now, todayOnly);
        SubMultisetKeysApart(r, all, ScoredId);
      }
    }
    r
  }

  /** The ranking keeps the nearest rows: a row that passes the filters but is
      left out lies no nearer than any row returned, and is left out only when
      `limit` rows were returned. */
  lemma RankedAreNearest(db: Db, rows: seq<string>, q: Vector, distance: Distance, now: DateTime,
                         todayOnly: bool, limit: nat, c: Scored)
    requires forall i :: 0 <= i < |rows| ==> rows[i] in db.vectors
    requires c in ScoredRows(db, rows, q, distance, now, todayOnly)
    requires c !in Ranked(db, rows, q, distance, now, todayOnly, limit)
    ensures |Ranked(db, rows, q, distance, now, todayOnly, limit)| == limit
    ensures forall i :: 0 <= i < limit ==> Ranked(db, rows, q, distance, now, todayOnly, limit)[i].distance <= c.distance
  {
    ByDistanceIsTotalPreorder();
    var all := ScoredRows(db, rows, q, distance, now, todayOnly);
    var r := Ranked(db, rows, q, distance, now, todayOnly, limit);
    assert r == TopBy(all, ByDistance, limit);
    assert c in multiset(all);
    assert |all| <= limit ==> multiset(r) == multiset(all);
  }

  /** Each ranked row is a stored vector of a searchable tender, scored against the query. */
  lemma RankedFromScored(db: Db, rows: seq<string>, q: Vector, distance: Distance, now: DateTime,
                         todayOnly: bool, limit: nat)
    requires forall i :: 0 <= i < |rows| ==> rows[i] in db.vectors
    ensures var r := Ranked(db, rows, q, distance, now, todayOnly, limit);
      forall i :: 0 <= i < |r| ==> (r[i].id in db.vectors && r[i].id in db.tenders
        && Searchable(db.tenders[r[i].id], now, todayOnly)
        && r[i].distance == distance(db.vectors[r[i].id], q))
  {
    var all := ScoredRows(db, rows, q, distance, now, todayOnly);
    var r := Ranked(db, rows, q, distance, now, todayOnly, limit);
    forall i | 0 <= i < |r|
      ensures r[i].id in db.vectors && r[i].id in db.tenders
        && Searchable(db.tenders[r[i].id], now, todayOnly)
        && r[i].distance == distance(db.vectors[r[i].id], q)
    {
      var j :| 0 <= j < |all| && all[j] == r[i];
    }
  }

  /** One search result: the tender's dictionary and `1 - distance`. */
  datatype Hit = Hit(tender: TenderDict, similarity: real)

  function ToHit(t: Tender, distance: real): (h: Hit)
    requires ValidTender(t)
    ensures h.similarity == 1.0 - distance
  {
    Hit(TenderToDict(t), 1.0 - distance)
  }

  /** The hits of ranked rows, in rank order. */
  function Hits(db: Db, ranked: seq<Scored>): (hits: seq<Hit>)
    requires ValidTenders(db) && forall i :: 0 <= i < |ranked| ==> ranked[i].id in db.tenders
    ensures |hits| == |ranked|
    ensures forall i :: 0 <= i < |hits| ==> hits[i] == ToHit(db.tenders[ranked[i].id], ranked[i].distance)
  {
    seq(|ranked|, i requires 0 <= i < |ranked| => ToHit(db.tenders[ranked[i].id], ranked[i].distance))
  }

  /** The search against the query vector `q`. */
  function SearchVector(db: Db, distance: Distance, q: Vector, limit: nat, todayOnly: bool,
                        now: DateTime, rows: seq<string>): (hits: seq<Hit>)
    requires Enumerates(rows, db.vectors.Keys) && ValidTenders(db)
    ensures |hits| == |Ranked(db, rows, q, distance, now, todayOnly, limit)|
      == Min(limit, |ScoredRows(db, rows, q, distance, now, todayOnly)|)
    ensures forall i :: 0 <= i < |hits| ==>
      hits[i].similarity == 1.0 - Ranked(db, rows, q, distance, now, todayOnly, limit)[i].distance
    ensures forall i, j :: 0 <= i < j < |hits| ==> hits[i].similarity >= hits[j].similarity
    ensures forall i :: 0 <= i < |hits| ==> HitOf(db, distance, q, todayOnly, now, hits[i])
    ensures WellKeyed(db.tenders) ==> TendersApart(hits)
  {
    var ranked := Ranked(db, rows, q, distance, now, todayOnly, limit);
    RankedFromScored(db, rows, q, distance, now, todayOnly, limit);
    var hits := Hits(db, ranked);
    HitsOfRanked(db, distance, q, todayOnly, now, ranked, hits);
    assert Distinct(rows);
    HitsApart(db, ranked, hits);
    hits
  }

  /** No tender is hit twice. */
  predicate TendersApart(hits: seq<Hit>) {
    forall i, j :: 0 <= i < j < |hits| ==> hits[i].tender.tenderId != hits[j].tender.tenderId
  }

  /** Over a well-keyed store, ranked rows of different tenders give hits of different tenders. */
  lemma HitsApart(db: Db, ranked: seq<Scored>, hits: seq<Hit>)
    requires ValidTenders(db) && forall i :: 0 <= i < |ranked| ==> ranked[i].id in db.tenders
    requires KeysApart(ranked, ScoredId) && hits == Hits(db, ranked)
    ensures WellKeyed(db.tenders) ==> TendersApart(hits)
  {
    if WellKeyed(db.tenders) {
      forall i, j | 0 <= i < j < |hits| ensures hits[i].tender.tenderId != hits[j].tender.tenderId {
        assert hits[i].tender.tenderId == ScoredId(ranked[i]);
        assert hits[j].tender.tenderId == ScoredId(ranked[j]);
      }
    }
  }

  /** `h` is the hit of a stored vector of a searchable tender. */
  predicate HitOf(db: Db, distance: Distance, q: Vector, todayOnly: bool, now: DateTime, h: Hit)
    requires ValidTenders(db)
  {
    exists id :: id in db.vectors && id in db.tenders
      && Searchable(db.tenders[id], now, todayOnly)
      && h == ToHit(db.tenders[id], distance(db.vectors[id], q))
  }

  /** Hits of sorted rows of searchable tenders come nearest first, each the
      hit of a stored vector of a searchable tender. */
  lemma HitsOfRanked(db: Db, distance: Distance, q: Vector, todayOnly: bool, now: DateTime, ranked: seq<Scored>,
                     hits: seq<Hit>)
    requires ValidTenders(db) && SortedBy(ranked, ByDistance)
    requires forall i :: 0 <= i < |ranked| ==> (ranked[i].id in db.vectors && ranked[i].id in db.tenders
      && Searchable(db.tenders[ranked[i].id], now, todayOnly)
      && ranked[i].distance == distance(db.vectors[ranked[i].id], q))
    requires hits == Hits(db, ranked)
    ensures forall i, j :: 0 <= i < j < |hits| ==> hits[i].similarity >= hits[j].similarity
    ensures forall i :: 0 <= i < |hits| ==> HitOf(db, distance, q, todayOnly, now, hits[i])
  {
    forall i | 0 <= i < |hits|
      ensures HitOf(db, distance, q, todayOnly, now, hits[i])
    {
      var id := ranked[i].id;
      assert id in db.vectors && id in db.tenders && Searchable(db.tenders[id], now, todayOnly)
        && hits[i] == ToHit(db.tenders[id], distance(db.vectors[id], q));
    }
    assert forall i, j :: 0 <= i < j < |hits| ==> ByDistance(ranked[i], ranked[j]);
  }

  /** pgvector's `<=>` raises when the two vectors differ in length: some row
      that passes the filters holds a vector of another length than `q`. */
  predicate Clashes(db: Db, rows: seq<string>, q: Vector, now: DateTime, todayOnly: bool)
    requires forall i :: 0 <= i < |rows| ==> rows[i] in db.vectors
  {
    exists i :: 0 <= i < |rows| && rows[i] in db.tenders && Searchable(db.tenders[rows[i]], now, todayOnly)
      && |db.vectors[rows[i]]| != |q|
  }

  /** Some stored vector of a searchable tender differs in length from `q`. */
  ghost predicate VectorClash(db: Db, q: Vector, now: DateTime, todayOnly: bool) {
    exists id :: id in db.vectors && id in db.tenders && Searchable(db.tenders[id], now, todayOnly)
      && |db.vectors[id]| != |q|
  }

  /** Over a listing of the stored vectors, a clash among the listed rows is a
      clash in the table. */
  lemma ClashesMeans(db: Db, rows: seq<string>, q: Vector, now: DateTime, todayOnly: bool)
    requires Enumerates(rows, db.vectors.Keys)
    ensures Clashes(db, rows, q, now, todayOnly) <==> VectorClash(db, q, now, todayOnly)
  {
    if VectorClash(db, q, now, todayOnly) {
      var id :| id in db.vectors && id in db.tenders && Searchable(db.tenders[id], now, todayOnly)
        && |db.vectors[id]| != |q|;
      var i :| 0 <= i < |rows| && rows[i] == id;
    }
  }

  /** `search_similar_tenders(query, limit, today_only)` at `now`: the query
      text embedded with `create_embedding`, then the vector search; `rows`
      lists the stored vectors in the order the join hands them back. The
      query raises (`None`) when the `embedding` column is dropped or when a
      searchable tender's vector differs in length from the query's. */
  function SearchSimilar(db: Db, embed: Provider, distance: Distance, query: string, limit: nat,
                         todayOnly: bool, now: DateTime, rows: seq<string>): (r: Option<seq<Hit>>)
    requires Enumerates(rows, db.vectors.Keys) && ValidTenders(db)
    ensures var q := CreateEmbedding(embed, query);
      r.None? <==> db.column.Dropped? || VectorClash(db, q, now, todayOnly)
    ensures var q := CreateEmbedding(embed, query);
      r.Some? ==> && r.value == SearchVector(db, distance, q, limit, todayOnly, now, rows)
                  && |r.value| == Min(limit, |ScoredRows(db, rows, q, distance, now, todayOnly)|)
    ensures r.Some? ==> forall i, j :: 0 <= i < j < |r.value| ==> r.value[i].similarity >= r.value[j].similarity
    ensures r.Some? ==> forall i :: 0 <= i < |r.value| ==>
      HitOf(db, distance, CreateEmbedding(embed, query), todayOnly, now, r.value[i])
    ensures r.Some? && WellKeyed(db.tenders) ==> TendersApart(r.value)
  {
    var q := CreateEmbedding(embed, query);
    ClashesMeans(db, rows, q, now, todayOnly);
    if db.column.Dropped? || Clashes(db, rows, q, now, todayOnly) then None
    else
      var hits := SearchVector(db, distance, q, limit, todayOnly, now, rows);
      assert WellKeyed(db.tenders) ==> TendersApart(hits);
      Some(hits)
  }

  /** With a reliable service asked for the column's dimension and a
      consistent store, the search never clashes: it answers whenever the
      column exists. */
  lemma SearchSucceedsWhenDimensionsAgree(db: Db, embed: Provider, distance: Distance, query: string,
                                          limit: nat, todayOnly: bool, now: DateTime, rows: seq<string>)
    requires Enumerates(rows, db.vectors.Keys) && ValidTenders(db) && Consistent(db)
    requires Reliable(embed) && db.column == Sized(EmbeddingDimension)
    ensures SearchSimilar(db, embed, distance, query, limit, todayOnly, now, rows).Some?
  {
    CreateEmbeddingHasFullDimension(embed, query);
  }

  /** A sorted arrangement of three rows with distinct distances is the ascending one. */
  lemma SortedThree(s: seq<Scored>, x: Scored, y: Scored, z: Scored)
    requires SortedBy(s, ByDistance) && multiset(s) == multiset{x, y, z}
    requires x.distance < y.distance < z.distance
    ensures s == [x, y, z]
  {
    assert |s| == |multiset(s)| == 3;
    assert x in multiset(s) && y in multiset(s) && z in multiset(s);
    forall i | 0 <= i < 3 ensures s[i] == x || s[i] == y || s[i] == z {
      assert s[i] in multiset(s);
    }
    var kx :| 0 <= kx < 3 && s[kx] == x;
    var kz :| 0 <= kz < 3 && s[kz] == z;
    assert ByDistance(s[0], s[kx]);
    assert ByDistance(s[kz], s[2]);
    assert s[0] == x && s[2] == z;
  }

  /** Three searchable vectors at distances 0.1, 0.4 and 0.7 from the query and
      a limit of 2: the two nearest come back, nearest first, with similarities
      0.9 and 0.6. */
  lemma SearchOfThreeWithLimitTwo(db: Db, distance: Distance, q: Vector, todayOnly: bool,
                                  now: DateTime, rows: seq<string>, x: Scored, y: Scored, z: Scored)
    requires Enumerates(rows, db.vectors.Keys) && ValidTenders(db)
    requires multiset(ScoredRows(db, rows, q, distance, now, todayOnly)) == multiset{x, y, z}
    requires x.distance == 0.1 && y.distance == 0.4 && z.distance == 0.7
    ensures Ranked(db, rows, q, distance, now, todayOnly, 2) == [x, y]
    ensures var hits := SearchVector(db, distance, q, 2, todayOnly, now, rows);
      |hits| == 2 && hits[0].similarity == 0.9 && hits[1].similarity == 0.6
  {
    RankedOfThree(db, distance, q, todayOnly, now, rows, x, y, z);
    var hits := SearchVector(db, distance, q, 2, todayOnly, now, rows);
    assert hits[0].similarity == 1.0 - x.distance;
  }

  lemma RankedOfThree(db: Db, distance: Distance, q: Vector, todayOnly: bool,
                      now: DateTime, rows: seq<string>, x: Scored, y: Scored, z: Scored)
    requires Enumerates(rows, db.vectors.Keys)
    requires multiset(ScoredRows(db, rows, q, distance, now, todayOnly)) == multiset{x, y, z}
    requires x.distance == 0.1 && y.distance == 0.4 && z.distance == 0.7
    ensures Ranked(db, rows, q, distance, now, todayOnly, 2) == [x, y]
  {
    ByDistanceIsTotalPreorder();
    var all := ScoredRows(db, rows, q, distance, now, todayOnly);
    var sorted := Sort(all, ByDistance);
    SortedThree(sorted, x, y, z);
    assert TopBy(all, ByDistance, 2) == sorted[..2];
  }

  /** `today_only` keeps tenders published since 00:00 of the day of `now`, not
      those of the last 24 hours: at 01:00 a tender published at 23:00 the day
      before, two hours earlier, is left out. */
  lemma TodayOnlyMeansSinceMidnight(t: Tender)
    requires t.publicationDate == Some(DateTime(Date(2025, 3, 9), 23 * 3_600_000_000))
    ensures var now := DateTime(Date(2025, 3, 10), 3_600_000_000);
      && MinusDays(now, 1) == Some(DateTime(Date(2025, 3, 9), 3_600_000_000))
      && Before(MinusDays(now, 1).value, t.publicationDate.value)
      && Before(t.publicationDate.value, now)
      && !PublishedToday(t, now)
      && !Searchable(t, now, true)
  {
    var now := DateTime(Date(2025, 3, 10), 3_600_000_000);
    assert PrevDay(Date(2025, 3, 10)) == Some(Date(2025, 3, 9));
    assert MinusDays(DateTime(Date(2025, 3, 9), 3_600_000_000), 0) == Some(DateTime(Date(2025, 3, 9), 3_600_000_000));
  }
}

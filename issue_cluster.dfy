/**
 * The issue clusters of the chatbot: every accepted question either counts once more for the
 * most similar known issue, when that one is similar enough, or opens a new issue.
 *
 * The `ISSUE_CLUSTER` table is the state of a class: its rows in the order the `SELECT`
 * returns them, and the last value drawn from `ISSUE_CLUSTER_SEQ`. The sentence embedding and
 * the cosine between two embeddings are one oracle, `similarity(normalized, norm)`, since a
 * stored embedding is the embedding of the stored normalized question.
 */
module IssueCluster {
  import opened Wrappers

  /** `SIMILARITY_THRESHOLD` */
  const SimilarityThreshold: real := 0.70

  /** A row of `ISSUE_CLUSTER`: the id, the first raw question (the title), its normalized
      form and how many questions it has counted. */
  datatype Cluster = Cluster(issueId: int, title: string, norm: string, count: nat)

  /** The cosine of the new question to every cluster, in table order. */
  function Scores(clusters: seq<Cluster>, norm: string, similarity: (string, string) -> real): (s: seq<real>)
    ensures |s| == |clusters|
    ensures forall i :: 0 <= i < |clusters| ==> s[i] == similarity(norm, clusters[i].norm)
  {
    seq(|clusters|, i requires 0 <= i < |clusters| => similarity(norm, clusters[i].norm))
  }

  /** The position and score kept by the selection loop. */
  datatype Best = Best(index: Option<nat>, score: real)

  /** The selection over `scores`, from `best_issue_id = None` and `best_score = 0.0`, taking a
      later score only when it is strictly larger. */
  function BestOf(scores: seq<real>): (b: Best)
    ensures b.index.None? ==> b.score == 0.0
    ensures b.index.Some? ==> b.index.value < |scores| && scores[b.index.value] == b.score
  {
    if scores == [] then Best(None, 0.0)
    else
      var n := |scores| - 1;
      var b := BestOf(scores[..n]);
      if scores[n] > b.score then Best(Some(n), scores[n]) else b
  }

  /** The selected cluster is the first whose score is strictly maximal, provided that score
      is positive; nothing is selected, and the score stays 0, when no score is positive. */
  lemma {:induction false} BestIsFirstMaximum(scores: seq<real>)
    ensures var b := BestOf(scores);
      && b.score >= 0.0
      && (forall i :: 0 <= i < |scores| ==> scores[i] <= b.score)
      && (b.index.None? <==> forall i :: 0 <= i < |scores| ==> scores[i] <= 0.0)
      && (b.index.Some? ==> b.score > 0.0 && forall j :: 0 <= j < b.index.value ==> scores[j] < b.score)
  {
    if scores != [] {
      var n := |scores| - 1;
      var front := scores[..n];
      BestIsFirstMaximum(front);
      assert forall i :: 0 <= i < n ==> front[i] == scores[i];
    }
  }

  /** The id of the selected cluster, `None` while nothing is selected. */
  function BestId(clusters: seq<Cluster>, b: Best): Option<int>
    requires b.index.Some? ==> b.index.value < |clusters|
  {
    if b.index.Some? then Some(clusters[b.index.value].issueId) else None
  }

  /** The selection loop of `upsert_issue_cluster`. */
  method SelectBest(clusters: seq<Cluster>, norm: string, similarity: (string, string) -> real)
    returns (bestIssueId: Option<int>, bestScore: real)
    ensures var b := BestOf(Scores(clusters, norm, similarity));
      bestScore == b.score && bestIssueId == BestId(clusters, b)
  {
    ghost var scores := Scores(clusters, norm, similarity);
    bestIssueId := None;
    bestScore := 0.0;
    var i := 0;
    while i < |clusters|
      invariant 0 <= i <= |clusters|
      invariant bestScore == BestOf(scores[..i]).score
      invariant bestIssueId == BestId(clusters, BestOf(scores[..i]))
    {
      assert scores[..i + 1][..i] == scores[..i];
      var score := similarity(norm, clusters[i].norm);
      if score > bestScore {
        bestScore := score;
        bestIssueId := Some(clusters[i].issueId);
      }
      i := i + 1;
    }
    assert scores[..i] == scores;
  }

  /** `UPDATE ... SET ISSUE_COUNT = ISSUE_COUNT + 1 WHERE ISSUE_ID = :id` */
  function Bump(clusters: seq<Cluster>, id: int): (r: seq<Cluster>)
    ensures |r| == |clusters|
  {
    seq(|clusters|, i requires 0 <= i < |clusters| =>
      if clusters[i].issueId == id then clusters[i].(count := clusters[i].count + 1) else clusters[i])
  }

  /** What one upsert does: the new rows, the new sequence value and the returned id. */
  datatype Upserted = Upserted(clusters: seq<Cluster>, lastId: int, issueId: int)

  /** `upsert_issue_cluster(raw_text, normalized_text)` as a value. */
  function UpsertOf(clusters: seq<Cluster>, lastId: int, raw: string, norm: string,
                    similarity: (string, string) -> real): (r: Upserted)
    ensures clusters == [] ==> r.issueId == lastId + 1
    ensures || (r.lastId == lastId && |r.clusters| == |clusters|)
            || (r.lastId == lastId + 1 && r.issueId == lastId + 1 &&
                r.clusters == clusters + [Cluster(lastId + 1, raw, norm, 1)])
    ensures exists k :: 0 <= k < |r.clusters| && r.clusters[k].issueId == r.issueId
  {
    var b := BestOf(Scores(clusters, norm, similarity));
    if b.score >= SimilarityThreshold then
      var id := clusters[b.index.value].issueId;
      assert Bump(clusters, id)[b.index.value].issueId == id;
      Upserted(Bump(clusters, id), lastId, id)
    else
      var rows := clusters + [Cluster(lastId + 1, raw, norm, 1)];
      assert rows[|clusters|].issueId == lastId + 1;
      Upserted(rows, lastId + 1, lastId + 1)
  }

  /** Ids are unique and none is above the sequence's last value. */
  predicate WellKeyed(clusters: seq<Cluster>, lastId: int)
  {
    && (forall i, j :: 0 <= i < j < |clusters| ==> clusters[i].issueId != clusters[j].issueId)
    && (forall i :: 0 <= i < |clusters| ==> clusters[i].issueId <= lastId)
  }

  /** The `ISSUE_CLUSTER` table and its id sequence. */
  class IssueClusters {
    var clusters: seq<Cluster>
    var lastId: int

    ghost predicate Valid()
      reads this
    {
      WellKeyed(clusters, lastId)
    }

    constructor(clusters0: seq<Cluster>, lastId0: int)
      requires WellKeyed(clusters0, lastId0)
      ensures Valid() && clusters == clusters0 && lastId == lastId0
    {
      clusters := clusters0;
      lastId := lastId0;
    }

    /** `upsert_issue_cluster`: select the best cluster, then count the question for it when
        its score reaches the threshold, or insert a new cluster whose id the sequence draws. */
    method Upsert(raw: string, norm: string, similarity: (string, string) -> real) returns (issueId: int)
      requires Valid()
      modifies this
      ensures Valid()
      ensures Upserted(clusters, lastId, issueId) == UpsertOf(old(clusters), old(lastId), raw, norm, similarity)
    {
      var bestIssueId, bestScore := SelectBest(clusters, norm, similarity);
      UpsertKeepsKeys(clusters, lastId, raw, norm, similarity);
      if bestScore >= SimilarityThreshold {
        clusters := Bump(clusters, bestIssueId.value);
        return bestIssueId.value;
      }
      lastId := lastId + 1;
      clusters := clusters + [Cluster(lastId, raw, norm, 1)];
      issueId := lastId;
    }
  }

  /** An upsert keeps the ids unique and below the sequence. */
  lemma UpsertKeepsKeys(clusters: seq<Cluster>, lastId: int, raw: string, norm: string,
                        similarity: (string, string) -> real)
    requires WellKeyed(clusters, lastId)
    ensures var u := UpsertOf(clusters, lastId, raw, norm, similarity);
      WellKeyed(u.clusters, u.lastId)
  {
    var u := UpsertOf(clusters, lastId, raw, norm, similarity);
    assert forall i :: 0 <= i < |clusters| ==> u.clusters[i].issueId == clusters[i].issueId;
  }

  /** A question similar enough to a known issue counts once more for the first best one: its
      id comes back, its count goes up by one, and no other row and no id changes. */
  lemma UpsertExisting(clusters: seq<Cluster>, lastId: int, raw: string, norm: string,
                       similarity: (string, string) -> real)
    requires WellKeyed(clusters, lastId)
    requires BestOf(Scores(clusters, norm, similarity)).score >= SimilarityThreshold
    ensures var b := BestOf(Scores(clusters, norm, similarity));
      var u := UpsertOf(clusters, lastId, raw, norm, similarity);
      && b.index.Some?
      && u.issueId == clusters[b.index.value].issueId
      && u.lastId == lastId && |u.clusters| == |clusters|
      && u.clusters[b.index.value] == clusters[b.index.value].(count := clusters[b.index.value].count + 1)
      && forall i :: 0 <= i < |clusters| && i != b.index.value ==> u.clusters[i] == clusters[i]
  {
  }

  /** Otherwise, also when there is no cluster at all, a new issue with the raw question as
      its title and a count of 1 is appended under the next id of the sequence, which comes
      back. */
  lemma UpsertNew(clusters: seq<Cluster>, lastId: int, raw: string, norm: string,
                  similarity: (string, string) -> real)
    requires BestOf(Scores(clusters, norm, similarity)).score < SimilarityThreshold || clusters == []
    ensures var u := UpsertOf(clusters, lastId, raw, norm, similarity);
      && u.issueId == lastId + 1 && u.lastId == lastId + 1
      && u.clusters == clusters + [Cluster(lastId + 1, raw, norm, 1)]
  {
  }

  /** The count of every cluster, summed. */
  function TotalCount(clusters: seq<Cluster>): nat
  {
    if clusters == [] then 0 else TotalCount(clusters[..|clusters| - 1]) + clusters[|clusters| - 1].count
  }

  lemma {:induction false} TotalCountAppend(a: seq<Cluster>, c: Cluster)
    ensures TotalCount(a + [c]) == TotalCount(a) + c.count
  {
    assert (a + [c])[..|a + [c]| - 1] == a;
  }

  /** Bumping an id held by exactly one row at `k` adds one to the total. */
  lemma {:induction false} TotalCountBump(clusters: seq<Cluster>, id: int, k: nat)
    requires k < |clusters| && clusters[k].issueId == id
    requires forall i :: 0 <= i < |clusters| && i != k ==> clusters[i].issueId != id
    ensures TotalCount(Bump(clusters, id)) == TotalCount(clusters) + 1
    decreases |clusters|
  {
    var n := |clusters| - 1;
    var front := clusters[..n];
    var bumped := Bump(clusters, id);
    assert bumped[..n] == Bump(front, id);
    if k == n {
      TotalCountUnbumped(front, id);
    } else {
      TotalCountBump(front, id, k);
    }
  }

  /** Bumping an id no row holds changes nothing. */
  lemma {:induction false} TotalCountUnbumped(clusters: seq<Cluster>, id: int)
    requires forall i :: 0 <= i < |clusters| ==> clusters[i].issueId != id
    ensures Bump(clusters, id) == clusters
  {
  }

  /** Every upsert counts the question exactly once: the counts add up to one more. */
  lemma UpsertCountsOnce(clusters: seq<Cluster>, lastId: int, raw: string, norm: string,
                         similarity: (string, string) -> real)
    requires WellKeyed(clusters, lastId)
    ensures TotalCount(UpsertOf(clusters, lastId, raw, norm, similarity).clusters) == TotalCount(clusters) + 1
  {
    var b := BestOf(Scores(clusters, norm, similarity));
    if b.score >= SimilarityThreshold {
      var k := b.index.value;
      TotalCountBump(clusters, clusters[k].issueId, k);
    } else {
      TotalCountAppend(clusters, Cluster(lastId + 1, raw, norm, 1));
    }
  }
}

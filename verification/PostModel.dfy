/** One conversation on the server. Every change of a post takes the
    conversation's next revision, so the server is the list of all versions ever
    written: the version with revision r is the r-th entry. What is sent of a
    version depends on more than its revision: a preview of the post it answers,
    the length of its text and, on the device, the names of the authors. */
module PostModel {
  import opened Basics

  type PostId = string
  type UserId = string

  const POST_PREVIEW_LENGTH: nat := 1000
  const REPLY_PREVIEW_LENGTH: nat := 200

  /** One version of a post as the server stores it. */
  datatype Entry = Entry(
    id: PostId, sequence: nat, author: Option<UserId>, brief: string, text: string, replyTo: Option<PostId>)

  type Log = seq<Entry>

  /** The names of an author and of the author of the post answered, as far as known. */
  datatype Names = Names(author: Option<string>, replyAuthor: Option<string>)

  /** What a row shows. `names` is there only after the device has looked them up. */
  datatype Content = Content(
    author: Option<UserId>,
    brief: string,
    text: string,
    truncated: bool,
    replyTo: Option<PostId>,
    replyAuthor: Option<UserId>,
    replyBrief: Option<string>,
    names: Option<Names>)

  datatype Post = Post(id: PostId, sequence: nat, revision: nat, content: Content)

  predicate IsRevision(log: Log, revision: nat) { 1 <= revision <= |log| }

  function Version(log: Log, revision: nat): Entry
    requires IsRevision(log, revision)
  {
    log[revision - 1]
  }

  /** This revision is the present one of its post. */
  predicate Current(log: Log, revision: nat) {
    && IsRevision(log, revision)
    && forall later :: revision <= later < |log| ==> log[later].id != log[revision - 1].id
  }

  /** Identity and sequence of a post never change. */
  predicate OnePlaceEach(log: Log) {
    forall i, j :: 0 <= i < |log| && 0 <= j < |log| ==> (log[i].id == log[j].id <==> log[i].sequence == log[j].sequence)
  }

  /** A version with a smaller sequence than an earlier one is not the first of its post. */
  predicate NewPostsLast(log: Log) {
    forall i, j :: 0 <= i < j < |log| && log[i].sequence > log[j].sequence ==>
      exists k :: 0 <= k < j && log[k].id == log[j].id
  }

  /** Identity and sequence of a post never change, and new posts get ever
      larger sequences. */
  predicate WellFormed(log: Log) {
    (forall i :: 0 <= i < |log| ==> log[i].sequence > 0) && OnePlaceEach(log) && NewPostsLast(log)
  }

  // --- the rows that are sent ---------------------------------------------------------------

  /** The content shows this version: its text, whole or cut to a preview. */
  predicate Shows(entry: Entry, content: Content) {
    && content.author == entry.author && content.brief == entry.brief && content.replyTo == entry.replyTo
    && if content.truncated then |entry.text| > POST_PREVIEW_LENGTH && content.text == entry.text[..POST_PREVIEW_LENGTH]
       else content.text == entry.text
  }

  /** A row that came from the server at some time, in whatever form. */
  predicate Genuine(log: Log, post: Post) {
    && IsRevision(log, post.revision)
    && var entry := Version(log, post.revision);
       post.id == entry.id && post.sequence == entry.sequence && Shows(entry, post.content)
  }

  /** The present version of a post, if there is such a post. */
  function Present(log: Log, id: PostId): (present: Option<Entry>)
    ensures present.Some? ==> present.value in log && present.value.id == id
  {
    if log == [] then None
    else if log[|log| - 1].id == id then Some(log[|log| - 1])
    else Present(log[..|log| - 1], id)
  }

  /** It is the one that no later version of the post follows. */
  lemma {:induction false} PresentIsCurrent(log: Log, id: PostId)
    ensures Present(log, id).None? <==> forall k :: 0 <= k < |log| ==> log[k].id != id
    ensures forall r: nat :: Current(log, r) && Version(log, r).id == id ==> Present(log, id) == Some(Version(log, r))
  {
    if log != [] && log[|log| - 1].id != id {
      var front := log[..|log| - 1];
      PresentIsCurrent(front, id);
      forall k | 0 <= k < |log| && log[k].id == id ensures Present(log, id).Some? {
        assert front[k].id == id;
      }
      forall r: nat | Current(log, r) && Version(log, r).id == id ensures Present(log, id) == Some(Version(log, r)) {
        assert Current(front, r) && Version(front, r) == Version(log, r);
      }
    }
  }

  /** The row of a version, joined with the present version of the post it answers. */
  function FullRow(log: Log, revision: nat): (row: Post)
    requires IsRevision(log, revision)
    ensures Genuine(log, row) && row.revision == revision
  {
    var entry := Version(log, revision);
    var parent := if entry.replyTo.Some? then Present(log, entry.replyTo.value) else None;
    Post(entry.id, entry.sequence, revision, Content(
      entry.author, entry.brief, entry.text, false, entry.replyTo,
      if parent.Some? then parent.value.author else None,
      if parent.Some? then Some(parent.value.brief) else None,
      None))
  }

  /** What a list shows of a row. A text that is cut keeps its reply preview whole. */
  function Truncated(post: Post): Post {
    var content := post.content;
    if |content.text| > POST_PREVIEW_LENGTH then
      post.(content := content.(text := content.text[..POST_PREVIEW_LENGTH], truncated := true))
    else if content.replyBrief.Some? && |content.replyBrief.value| > REPLY_PREVIEW_LENGTH then
      post.(content := content.(replyBrief := Some(content.replyBrief.value[..REPLY_PREVIEW_LENGTH])))
    else post
  }

  /** The row of a version in a list. */
  function ListedRow(log: Log, revision: nat): (row: Post)
    requires IsRevision(log, revision)
    ensures Genuine(log, row) && row.revision == revision && row.content.names.None?
  {
    Truncated(FullRow(log, revision))
  }

  /** What a list sends of a version, without a row in between: a text longer
      than 1000 is cut to them and marked, and only if it is not is the brief of
      the post answered, as it is now, cut to 200. */
  lemma ListedRowIs(log: Log, revision: nat, parent: nat)
    requires IsRevision(log, revision)
    requires var to := Version(log, revision).replyTo;
             to.Some? && (exists k :: 0 <= k < |log| && log[k].id == to.value) ==>
               Current(log, parent) && Version(log, parent).id == to.value
    ensures var v := Version(log, revision);
            var found := v.replyTo.Some? && exists k :: 0 <= k < |log| && log[k].id == v.replyTo.value;
            var cut := |v.text| > 1000;
            var brief := if found then Some(Version(log, parent).brief) else None;
            ListedRow(log, revision)
            == Post(v.id, v.sequence, revision, Content(
                 v.author, v.brief, if cut then v.text[..1000] else v.text, cut, v.replyTo,
                 if found then Version(log, parent).author else None,
                 if brief.Some? && |brief.value| > 200 && !cut then Some(brief.value[..200]) else brief,
                 None))
  {
    var to := Version(log, revision).replyTo;
    if to.Some? {
      PresentIsCurrent(log, to.value);
    }
  }

  type Users = map<UserId, string>

  function NameOf(users: Users, id: Option<UserId>): Option<string> {
    if id.Some? && id.value in users then Some(users[id.value]) else None
  }

  /** A row with the names the device puts in. */
  function Materialized(post: Post, users: Users): Post {
    post.(content := post.content.(
      names := Some(Names(NameOf(users, post.content.author), NameOf(users, post.content.replyAuthor)))))
  }

  function AllMaterialized(rows: seq<Post>, users: Users): (named: seq<Post>)
    ensures |named| == |rows|
    ensures forall k :: 0 <= k < |rows| ==> named[k] == Materialized(rows[k], users)
  {
    seq(|rows|, k requires 0 <= k < |rows| => Materialized(rows[k], users))
  }

  /** The names are the known ones of the two authors, and nothing else changes. */
  lemma NamesAreTheAuthors(post: Post, users: Users)
    ensures var content := Materialized(post, users).content;
            && Materialized(post, users).(content := post.content) == post
            && content.(names := post.content.names) == post.content && content.names.Some?
            && var names := content.names.value;
               && (names.author.Some? <==> post.content.author.Some? && post.content.author.value in users)
               && (names.author.Some? ==> names.author.value == users[post.content.author.value])
               && (names.replyAuthor.Some? <==>
                     post.content.replyAuthor.Some? && post.content.replyAuthor.value in users)
               && (names.replyAuthor.Some? ==> names.replyAuthor.value == users[post.content.replyAuthor.value])
  {
  }

  /** Among these rows is one with this revision. */
  predicate Has(rows: seq<Post>, revision: nat) {
    exists row :: row in rows && row.revision == revision
  }

  /** Editing the post that a reply answers changes the reply's row and leaves its revision. */
  lemma EditedParentChangesRow(log: Log, reply: nat, edited: Entry)
    requires IsRevision(log, reply) && Version(log, reply).replyTo == Some(edited.id)
    requires FullRow(log, reply).content.replyBrief != Some(edited.brief)
    ensures FullRow(log + [edited], reply) != FullRow(log, reply)
    ensures FullRow(log + [edited], reply).revision == FullRow(log, reply).revision
  {
  }

  /** A list shows a row as an event does if and only if nothing of it is too long. */
  lemma ListedIsFullIff(log: Log, revision: nat)
    requires IsRevision(log, revision)
    ensures ListedRow(log, revision) == FullRow(log, revision)
       <==> (&& |Version(log, revision).text| <= POST_PREVIEW_LENGTH
             && var brief := FullRow(log, revision).content.replyBrief;
                brief.Some? ==> |brief.value| <= REPLY_PREVIEW_LENGTH)
  {
  }

  predicate Grows(before: Log, after: Log) {
    before <= after && WellFormed(before) && WellFormed(after)
  }

  /** A revision that is still current later was current all along. */
  lemma CurrentWas(before: Log, after: Log, revision: nat)
    requires before <= after && Current(after, revision) && revision <= |before|
    ensures Current(before, revision) && Version(before, revision) == Version(after, revision)
  {
  }

  /** Two present versions of one post are the same. */
  lemma CurrentIsUnique(log: Log, first: nat, second: nat)
    requires Current(log, first) && Current(log, second) && Version(log, first).id == Version(log, second).id
    ensures first == second
  {
  }

  /** No version of a post is newer than its present one. */
  lemma CurrentIsNewest(log: Log, current: nat, post: Post)
    requires Current(log, current) && Genuine(log, post) && post.id == Version(log, current).id
    ensures post.revision <= current
  {
  }

  // --- the changed rows of a range ----------------------------------------------------------

  /** The revisions in (after, through] that the server lists, in their order. */
  function ChangedRevisions(log: Log, after: nat, through: nat): (revisions: seq<nat>)
    requires through <= |log|
    ensures forall k :: 0 <= k < |revisions| ==> IsRevision(log, revisions[k])
    decreases through
  {
    if through <= after then []
    else if Current(log, through) then ChangedRevisions(log, after, through - 1) + [through]
    else ChangedRevisions(log, after, through - 1)
  }

  lemma {:induction false} ChangedRevisionsAreExact(log: Log, after: nat, through: nat)
    requires through <= |log|
    ensures forall r: nat :: r in ChangedRevisions(log, after, through) <==> after < r <= through && Current(log, r)
    ensures forall j, k :: 0 <= j < k < |ChangedRevisions(log, after, through)| ==>
              ChangedRevisions(log, after, through)[j] < ChangedRevisions(log, after, through)[k]
    decreases through
  {
    if after < through {
      ChangedRevisionsAreExact(log, after, through - 1);
      var before, all := ChangedRevisions(log, after, through - 1), ChangedRevisions(log, after, through);
      forall j, k | 0 <= j < k < |all| ensures all[j] < all[k] {
        assert all[j] == before[j] && before[j] in before;
      }
    }
  }

  // --- the revision sum ---------------------------------------------------------------------

  /** The sum of the present revisions of all posts. */
  function RevisionSum(log: Log): nat {
    SumUpTo(log, |log|)
  }

  function SumUpTo(log: Log, through: nat): nat
    requires through <= |log|
  {
    if through == 0 then 0
    else SumUpTo(log, through - 1) + if Current(log, through) then through else 0
  }

  /** Appending a version takes away at most the previous revision of its post. */
  lemma {:induction false} SumAfterAppend(log: Log, entry: Entry, through: nat)
    requires through <= |log|
    ensures SumUpTo(log + [entry], through)
         == SumUpTo(log, through) - (if exists r :: 1 <= r <= through && Current(log, r) && log[r - 1].id == entry.id
                                     then Newest(log, entry.id, through) else 0)
    decreases through
  {
    if through > 0 {
      SumAfterAppend(log, entry, through - 1);
      var longer := log + [entry];
      assert longer[|log|] == entry && forall k :: 0 <= k < |log| ==> longer[k] == log[k];
      assert Current(longer, through) <==> Current(log, through) && log[through - 1].id != entry.id;
      if Current(log, through) && log[through - 1].id == entry.id {
        assert !exists r :: 1 <= r <= through - 1 && Current(log, r) && log[r - 1].id == entry.id;
      }
    }
  }

  /** The present revision of a post among the first ones, or zero. */
  function Newest(log: Log, id: PostId, through: nat): (revision: nat)
    requires through <= |log|
    ensures revision <= through
  {
    if through == 0 then 0
    else if Current(log, through) && log[through - 1].id == id then through
    else Newest(log, id, through - 1)
  }

  /** Every change strictly raises the sum. */
  lemma ChangeRaisesSum(log: Log, entry: Entry)
    ensures RevisionSum(log) < RevisionSum(log + [entry])
  {
    SumAfterAppend(log, entry, |log|);
    assert Current(log + [entry], |log| + 1);
  }

  lemma {:induction false} NewestIsCurrent(log: Log, through: nat, revision: nat)
    requires Current(log, revision) && revision <= through <= |log|
    ensures Newest(log, Version(log, revision).id, through) == revision
    decreases through
  {
    if revision < through {
      assert !(Current(log, through) && log[through - 1].id == Version(log, revision).id);
      NewestIsCurrent(log, through - 1, revision);
    }
  }

  /** By how much: a new post adds its revision, and an edit adds its revision
      and takes away the one it supersedes. */
  lemma ChangeMovesSum(log: Log, entry: Entry)
    ensures (forall k :: 0 <= k < |log| ==> log[k].id != entry.id) ==>
              RevisionSum(log + [entry]) == RevisionSum(log) + |log| + 1
    ensures forall r: nat :: Current(log, r) && Version(log, r).id == entry.id ==>
              RevisionSum(log + [entry]) == RevisionSum(log) - r + |log| + 1
  {
    SumAfterAppend(log, entry, |log|);
    assert Current(log + [entry], |log| + 1);
    forall r: nat | Current(log, r) && Version(log, r).id == entry.id
      ensures RevisionSum(log + [entry]) == RevisionSum(log) - r + |log| + 1
    {
      NewestIsCurrent(log, |log|, r);
    }
  }

  lemma {:induction false} SumIsMonotone(before: Log, after: Log)
    requires before <= after
    ensures RevisionSum(before) <= RevisionSum(after)
    ensures RevisionSum(before) == RevisionSum(after) ==> before == after
    decreases |after|
  {
    if before != after {
      var last := |after| - 1;
      SumIsMonotone(before, after[..last]);
      assert after == after[..last] + [after[last]];
      ChangeRaisesSum(after[..last], after[last]);
    }
  }
}

/**
 * The task dialog's comment threads: `buildCommentTree` turns a task's
 * flat comment list into root comments with nested replies.
 *
 * It fills a map from comment id to a node object and pushes node
 * references onto other nodes' `children` arrays, so nodes are shared. The
 * model keeps that sharing by reference: a node's children and the roots
 * are lists of ids, each resolved through the returned map.
 */
module TaskModal {
  import opened Wrappers
  import opened Seqs
  import opened Types
  import opened KanbanContext
  import opened KanbanProperties
  import opened KanbanInvariants

  /** A comment together with the ids of its replies, in list order. */
  datatype CommentNode = CommentNode(comment: Comment, children: seq<Id>)

  /** `if (comment.parentId)`: a parent id is set and is not the empty string. */
  predicate IsReply(c: Comment) {
    c.parentId.Some? && c.parentId.value != ""
  }

  predicate IsTopLevel(c: Comment) {
    !IsReply(c)
  }

  function RepliesTo(parent: Id): Comment -> bool {
    (c: Comment) => IsReply(c) && c.parentId.value == parent
  }

  /** The comments shown at the top of the thread, in list order. */
  function TopLevel(comments: seq<Comment>): seq<Comment> {
    Filter(comments, IsTopLevel)
  }

  /** The direct replies to `parent`, in list order. */
  function Replies(comments: seq<Comment>, parent: Id): seq<Comment> {
    Filter(comments, RepliesTo(parent))
  }

  function Ids(comments: seq<Comment>): (r: seq<Id>)
    ensures |r| == |comments|
    ensures forall i :: 0 <= i < |comments| ==> r[i] == comments[i].id
  {
    seq(|comments|, i requires 0 <= i < |comments| => comments[i].id)
  }

  /**
   * The comment a `Map.set` loop over `comments` leaves under `id`: the
   * last one carrying it, or none.
   */
  function Latest(comments: seq<Comment>, id: Id): (r: Option<Comment>)
    ensures r.None? <==> forall c :: c in comments ==> c.id != id
    ensures r.Some? ==> exists k :: 0 <= k < |comments| && comments[k] == r.value && r.value.id == id
                                    && forall j :: k < j < |comments| ==> comments[j].id != id
  {
    if comments == [] then None
    else
      var last := comments[|comments| - 1];
      assert comments == comments[..|comments| - 1] + [last];
      if last.id == id then Some(last) else Latest(comments[..|comments| - 1], id)
  }

  lemma LatestStep(comments: seq<Comment>, i: nat)
    requires i < |comments|
    ensures forall id :: Latest(comments[..i + 1], id)
                      == if comments[i].id == id then Some(comments[i]) else Latest(comments[..i], id)
  {
    var prefix := comments[..i + 1];
    assert prefix[|prefix| - 1] == comments[i];
    assert prefix[..|prefix| - 1] == comments[..i];
    forall id ensures Latest(prefix, id) == if comments[i].id == id then Some(comments[i]) else Latest(comments[..i], id) {
    }
  }

  /** Appending the `i`-th comment's id to the roots when it is top-level keeps the root list up to date. */
  lemma RootPushed(before: seq<Id>, after: seq<Id>, comments: seq<Comment>, i: nat)
    requires i < |comments|
    requires before == Ids(TopLevel(comments[..i]))
    requires after == if IsTopLevel(comments[i]) then before + [comments[i].id] else before
    ensures after == Ids(TopLevel(comments[..i + 1]))
  {
    assert comments[..i + 1] == comments[..i] + [comments[i]];
    FilterConcat(comments[..i], [comments[i]], IsTopLevel);
  }

  lemma RepliesStep(comments: seq<Comment>, i: nat, parent: Id)
    requires i < |comments|
    ensures Ids(Replies(comments[..i + 1], parent))
         == Ids(Replies(comments[..i], parent)) + (if RepliesTo(parent)(comments[i]) then [comments[i].id] else [])
  {
    assert comments[..i + 1] == comments[..i] + [comments[i]];
    FilterConcat(comments[..i], [comments[i]], RepliesTo(parent));
  }

  /** Pushing the `i`-th comment's id onto its parent's node keeps every node's reply list up to date. */
  lemma ChildPushed(before: map<Id, CommentNode>, after: map<Id, CommentNode>, comments: seq<Comment>, i: nat)
    requires i < |comments|
    requires forall id :: id in before ==> before[id].children == Ids(Replies(comments[..i], id))
    requires var c := comments[i];
             after == if IsReply(c) && c.parentId.value in before
                      then before[c.parentId.value := before[c.parentId.value].(children := before[c.parentId.value].children + [c.id])]
                      else before
    ensures after.Keys == before.Keys
    ensures forall id :: id in after ==> after[id].comment == before[id].comment
    ensures forall id :: id in after ==> after[id].children == Ids(Replies(comments[..i + 1], id))
  {
    forall id | id in after ensures after[id].children == Ids(Replies(comments[..i + 1], id)) {
      RepliesStep(comments, i, id);
    }
  }

  /**
   * The first pass of `buildCommentTree`: one node with no children per
   * comment id, a later comment with the same id replacing an earlier one.
   */
  method IndexById(comments: seq<Comment>) returns (nodes: map<Id, CommentNode>)
    ensures forall id :: id in nodes <==> Latest(comments, id).Some?
    ensures forall id :: id in nodes ==> nodes[id] == CommentNode(Latest(comments, id).value, [])
  {
    nodes := map[];
    var i := 0;
    while i < |comments|
      invariant 0 <= i <= |comments|
      invariant forall id :: id in nodes <==> Latest(comments[..i], id).Some?
      invariant forall id :: id in nodes ==> nodes[id] == CommentNode(Latest(comments[..i], id).value, [])
    {
      LatestStep(comments, i);
      nodes := nodes[comments[i].id := CommentNode(comments[i], [])];
      i := i + 1;
    }
    assert comments[..i] == comments;
  }

  /**
   * `buildCommentTree`. `nodes` is the id-to-node map and `tree` the ids of
   * the roots. A reply goes under its parent's node when some comment
   * carries the parent id; a reply whose parent is missing goes nowhere.
   */
  method BuildCommentTree(comments: seq<Comment>) returns (nodes: map<Id, CommentNode>, tree: seq<Id>)
    ensures forall id :: id in nodes <==> exists c :: c in comments && c.id == id
    ensures forall id :: id in nodes ==> Latest(comments, id) == Some(nodes[id].comment)
    ensures forall id :: id in nodes ==> nodes[id].children == Ids(Replies(comments, id))
    ensures tree == Ids(TopLevel(comments))
  {
    nodes := IndexById(comments);
    tree := [];
    var i := 0;
    assert comments[..i] == [];
    assert TopLevel([]) == [] && Ids([]) == [];
    assert forall id :: Replies([], id) == [];
    while i < |comments|
      invariant 0 <= i <= |comments|
      invariant forall id :: id in nodes <==> Latest(comments, id).Some?
      invariant forall id :: id in nodes ==> nodes[id].comment == Latest(comments, id).value
      invariant forall id :: id in nodes ==> nodes[id].children == Ids(Replies(comments[..i], id))
      invariant tree == Ids(TopLevel(comments[..i]))
    {
      var c := comments[i];
      ghost var before, rootsBefore := nodes, tree;
      if IsReply(c) {
        var parent := c.parentId.value;
        if parent in nodes {
          nodes := nodes[parent := nodes[parent].(children := nodes[parent].children + [c.id])];
        }
      } else {
        tree := tree + [c.id];
      }
      ChildPushed(before, nodes, comments, i);
      RootPushed(rootsBefore, tree, comments, i);
      i := i + 1;
    }
    assert comments[..i] == comments;
  }

  // ----- What the thread view shows -----

  /** With distinct comment ids, the comment carrying an id is the only one. */
  lemma SameIdSameComment(comments: seq<Comment>, c: Comment, d: Comment)
    requires UniqueCommentIds(comments)
    requires c in comments && d in comments && c.id == d.id
    ensures c == d
  {
    var i :| 0 <= i < |comments| && comments[i] == c;
    var j :| 0 <= j < |comments| && comments[j] == d;
    assert |Filter(comments, HasCommentId(c.id))| <= 1;
    OnlyKeptAt(comments, HasCommentId(c.id), i);
  }

  /** On a valid board a comment id names one comment, on one task. */
  lemma CommentIdNamesOneComment(s: KanbanState, t: Task, u: Task, c: Comment, d: Comment)
    requires Valid(s) && t in s.tasks && u in s.tasks
    requires c in t.comments && d in u.comments && c.id == d.id
    ensures t == u && c == d
  {
    assert c.id in CommentIds(t) && d.id in CommentIds(u);
    FindUniqueTask(s.tasks, t);
    FindUniqueTask(s.tasks, u);
    SameIdSameComment(t.comments, c, d);
  }

  /** An id occurs in a filtered list's ids exactly when its comment passes the filter. */
  lemma IdListed(comments: seq<Comment>, keep: Comment -> bool, c: Comment)
    requires UniqueCommentIds(comments) && c in comments
    ensures c.id in Ids(Filter(comments, keep)) <==> keep(c)
  {
    var kept := Filter(comments, keep);
    assert keep(c) ==> c in kept;
    if c.id in Ids(kept) {
      var i :| 0 <= i < |kept| && Ids(kept)[i] == c.id;
      assert kept[i] in kept;
      SameIdSameComment(comments, c, kept[i]);
    }
  }

  /**
   * With distinct comment ids, a comment is a root exactly when it is not
   * a reply, and is listed under `parent` exactly when it replies to it.
   */
  lemma PlacedByParentId(comments: seq<Comment>, c: Comment, parent: Id)
    requires UniqueCommentIds(comments) && c in comments
    ensures c.id in Ids(TopLevel(comments)) <==> !IsReply(c)
    ensures c.id in Ids(Replies(comments, parent)) <==> IsReply(c) && c.parentId.value == parent
  {
    IdListed(comments, IsTopLevel, c);
    IdListed(comments, RepliesTo(parent), c);
  }

  /**
   * A reply whose parent no comment carries is shown nowhere: it is not a
   * root and no existing comment lists it.
   */
  lemma OrphanDropped(comments: seq<Comment>, c: Comment)
    requires UniqueCommentIds(comments) && c in comments && IsReply(c)
    requires forall d :: d in comments ==> d.id != c.parentId.value
    ensures c.id !in Ids(TopLevel(comments))
    ensures forall d :: d in comments ==> c.id !in Ids(Replies(comments, d.id))
  {
    PlacedByParentId(comments, c, "");
    forall d | d in comments ensures c.id !in Ids(Replies(comments, d.id)) {
      PlacedByParentId(comments, c, d.id);
    }
  }

  /**
   * A root, or a reply whose parent is present, is shown once: in the root
   * list or under its parent, and under no other comment.
   */
  lemma ResolvedShownOnce(comments: seq<Comment>, c: Comment)
    requires UniqueCommentIds(comments) && c in comments
    requires IsReply(c) ==> exists d :: d in comments && d.id == c.parentId.value
    ensures !IsReply(c) ==> c.id in Ids(TopLevel(comments))
    ensures IsReply(c) ==> c.id !in Ids(TopLevel(comments)) && c.id in Ids(Replies(comments, c.parentId.value))
    ensures forall d :: d in comments && (IsReply(c) ==> d.id != c.parentId.value) ==> c.id !in Ids(Replies(comments, d.id))
  {
    PlacedByParentId(comments, c, if IsReply(c) then c.parentId.value else "");
    forall d | d in comments && (IsReply(c) ==> d.id != c.parentId.value)
      ensures c.id !in Ids(Replies(comments, d.id))
    {
      PlacedByParentId(comments, c, d.id);
    }
  }

  /**
   * The ids the recursive thread view reaches within `depth` steps: the
   * roots, then the ids listed under a reached id.
   */
  ghost predicate ReachableWithin(comments: seq<Comment>, id: Id, depth: nat)
    decreases depth
  {
    || id in Ids(TopLevel(comments))
    || (depth > 0 && exists p :: ReachableWithin(comments, p, depth - 1) && id in Ids(Replies(comments, p)))
  }

  /**
   * Ids closed under "parent of": every comment carrying one of them is a
   * reply to another of them (a cycle of replies, say). None of them is
   * ever reached from the roots.
   */
  lemma {:induction false} ParentClosedUnreachable(comments: seq<Comment>, closed: set<Id>, id: Id, depth: nat)
    requires forall c :: c in comments && c.id in closed ==> IsReply(c) && c.parentId.value in closed
    requires id in closed
    ensures !ReachableWithin(comments, id, depth)
    decreases depth
  {
    var roots := TopLevel(comments);
    forall k | 0 <= k < |roots| ensures Ids(roots)[k] != id {
      assert roots[k] in roots;
    }
    if depth > 0 {
      forall p | id in Ids(Replies(comments, p)) ensures !ReachableWithin(comments, p, depth - 1) {
        var replies := Replies(comments, p);
        var k :| 0 <= k < |replies| && Ids(replies)[k] == id;
        assert replies[k] in replies;
        ParentClosedUnreachable(comments, closed, p, depth - 1);
      }
    }
  }

  /** A comment that names itself as its parent is never shown. */
  lemma SelfParentUnreachable(comments: seq<Comment>, c: Comment, depth: nat)
    requires UniqueCommentIds(comments) && c in comments
    requires c.parentId == Some(c.id) && c.id != ""
    ensures !ReachableWithin(comments, c.id, depth)
  {
    forall d | d in comments && d.id in {c.id} ensures IsReply(d) && d.parentId.value in {c.id} {
      SameIdSameComment(comments, c, d);
    }
    ParentClosedUnreachable(comments, {c.id}, c.id, depth);
  }

  /** A comment, a reply to it and a reply to the reply form one three-level thread. */
  lemma ThreeLevelThread(taskId: Id)
    ensures var comments := [Comment("a", "root", taskId, None),
                             Comment("b", "reply", taskId, Some("a")),
                             Comment("c", "nested", taskId, Some("b"))];
            && Ids(TopLevel(comments)) == ["a"]
            && Ids(Replies(comments, "a")) == ["b"]
            && Ids(Replies(comments, "b")) == ["c"]
            && Ids(Replies(comments, "c")) == []
  {
    var a := Comment("a", "root", taskId, None);
    var b := Comment("b", "reply", taskId, Some("a"));
    var c := Comment("c", "nested", taskId, Some("b"));
    assert IsTopLevel(a) && !IsTopLevel(b) && !IsTopLevel(c);
    FilterOfThree(a, b, c, IsTopLevel);
    assert RepliesTo("a")(b) && !RepliesTo("a")(a) && !RepliesTo("a")(c);
    FilterOfThree(a, b, c, RepliesTo("a"));
    assert RepliesTo("b")(c) && !RepliesTo("b")(a) && !RepliesTo("b")(b);
    FilterOfThree(a, b, c, RepliesTo("b"));
    assert !RepliesTo("c")(a) && !RepliesTo("c")(b) && !RepliesTo("c")(c);
    FilterOfThree(a, b, c, RepliesTo("c"));
  }

  lemma FilterOfThree(a: Comment, b: Comment, c: Comment, keep: Comment -> bool)
    ensures Filter([a, b, c], keep)
         == (if keep(a) then [a] else []) + (if keep(b) then [b] else []) + (if keep(c) then [c] else [])
  {
    assert [a, b, c] == [a] + [b] + [c];
    FilterConcat([a] + [b], [c], keep);
    FilterConcat([a], [b], keep);
  }

  /**
   * DELETE_COMMENT keeps each task's threads in order: the roots, and the
   * replies to any parent, are what they were with the deleted id taken out.
   */
  lemma DeleteCommentKeepsThreadOrder(s: KanbanState, id: Id)
    ensures var r := Reduce(s, DeleteComment(id), "");
            && |r.tasks| == |s.tasks|
            && forall i :: 0 <= i < |s.tasks| ==>
                 && TopLevel(r.tasks[i].comments) == Filter(TopLevel(s.tasks[i].comments), LacksCommentId(id))
                 && forall p :: Replies(r.tasks[i].comments, p)
                                == Filter(Replies(s.tasks[i].comments, p), LacksCommentId(id))
  {
    var r := Reduce(s, DeleteComment(id), "");
    forall i | 0 <= i < |s.tasks|
      ensures TopLevel(r.tasks[i].comments) == Filter(TopLevel(s.tasks[i].comments), LacksCommentId(id))
    {
      FilterCommute(s.tasks[i].comments, LacksCommentId(id), IsTopLevel);
    }
    forall i, p | 0 <= i < |s.tasks|
      ensures Replies(r.tasks[i].comments, p) == Filter(Replies(s.tasks[i].comments, p), LacksCommentId(id))
    {
      FilterCommute(s.tasks[i].comments, LacksCommentId(id), RepliesTo(p));
    }
  }

  /** An empty parent id is falsy: such a comment is a root. */
  lemma EmptyParentIsRoot(c: Comment)
    requires c.parentId == Some("")
    ensures Ids(TopLevel([c])) == [c.id]
  {
  }
}

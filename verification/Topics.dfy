/** `split_by_topic` of assistant/answering/router.py: when one message is two questions. */
module Topics {
  import opened Wrappers
  import opened Blanks

  /** The patterns of the source: where a message may be cut, what is an instruction about sources,
  and the policy topic that a text falls under. */
  datatype Reader = Reader(cut: string -> seq<string>, instruction: string -> bool, topic: string -> Option<string>)

  predicate IsEdge(c: char) {
    c == ' ' || c == ',' || c == ';'
  }

  function Trimmed(pieces: seq<string>): seq<string> {
    if pieces == [] then []
    else
      var p := TrimRight(TrimLeft(pieces[0], IsEdge), IsEdge);
      (if p != "" then [p] else []) + Trimmed(pieces[1..])
  }

  function LongEnough(parts: seq<string>): seq<string> {
    if parts == [] then []
    else (if |Words(parts[0])| >= 3 then [parts[0]] else []) + LongEnough(parts[1..])
  }

  // ------------------------------------------------- attaching instructions

  datatype Attaching = Attaching(joined: seq<string>, pending: seq<string>)

  function Attach(parts: seq<string>, r: Reader): Attaching {
    if parts == [] then Attaching([], [])
    else
      var a := Attach(parts[..|parts| - 1], r);
      var part := parts[|parts| - 1];
      if r.instruction(part) then a.(pending := a.pending + [part])
      else Attaching(a.joined + [Spaced(a.pending + [part])], [])
  }

  /** Every instruction goes to the question behind it, or to the last one. */
  function Attached(parts: seq<string>, r: Reader): seq<string> {
    var a := Attach(parts, r);
    if a.pending == [] then a.joined
    else if a.joined == [] then [Spaced(a.pending)]
    else a.joined[|a.joined| - 1 := Spaced([a.joined[|a.joined| - 1]] + a.pending)]
  }

  method AttachInstructions(parts: seq<string>, r: Reader) returns (joined: seq<string>)
    ensures joined == Attached(parts, r)
  {
    joined := [];
    var pending: seq<string> := [];
    for i := 0 to |parts|
      invariant Attaching(joined, pending) == Attach(parts[..i], r)
    {
      assert parts[..i + 1][..i] == parts[..i];
      if r.instruction(parts[i]) {
        pending := pending + [parts[i]];
      } else {
        joined := joined + [Spaced(pending + [parts[i]])];
        pending := [];
      }
    }
    assert parts[..|parts|] == parts;
    if pending != [] {
      if joined != [] {
        joined := joined[|joined| - 1 := Spaced([joined[|joined| - 1]] + pending)];
      } else {
        joined := [Spaced(pending)];
      }
    }
  }

  // ------------------------------------------------------------ the decision

  predicate AnyInstruction(parts: seq<string>, r: Reader) {
    exists i :: 0 <= i < |parts| && r.instruction(parts[i])
  }

  function Candidates(question: string, r: Reader): seq<string> {
    var parts := Trimmed(r.cut(question));
    if AnyInstruction(parts, r) then Attached(parts, r) else LongEnough(parts)
  }

  predicate SomeGated(parts: seq<string>, r: Reader) {
    exists i :: 0 <= i < |parts| && r.topic(parts[i]).Some?
  }

  predicate AllGated(parts: seq<string>, r: Reader) {
    forall i :: 0 <= i < |parts| ==> r.topic(parts[i]).Some?
  }

  function SplitByTopic(question: string, r: Reader): seq<string> {
    var candidates := Candidates(question, r);
    if |candidates| < 2 then if candidates == [] then [Strip(question)] else candidates
    else if SomeGated(candidates, r) && !AllGated(candidates, r) then candidates
    else if AllGated(candidates, r) && |set p | p in candidates :: r.topic(p)| > 1 then candidates
    else [Strip(question)]
  }

  // ------------------------------------------------------------ main results

  /** Two of the parts want different paths: different policy topics, or one of them none. */
  ghost predicate TwoJobs(parts: seq<string>, r: Reader) {
    exists i, j :: 0 <= i < j < |parts| && r.topic(parts[i]) != r.topic(parts[j])
  }

  /** A message is split exactly when two of its parts want different paths, and then into all its
  parts; it is never taken apart into nothing. */
  lemma SplitsForTwoJobs(question: string, r: Reader)
    ensures |SplitByTopic(question, r)| > 1 <==> TwoJobs(Candidates(question, r), r)
    ensures |SplitByTopic(question, r)| > 1 ==> SplitByTopic(question, r) == Candidates(question, r)
    ensures SplitByTopic(question, r) != []
    ensures |SplitByTopic(question, r)| == 1 ==>
              SplitByTopic(question, r) == if |Candidates(question, r)| == 1 then Candidates(question, r) else [Strip(question)]
  {
    hide Candidates, Strip;
    var parts := Candidates(question, r);
    var topics := set p | p in parts :: r.topic(p);
    if |parts| >= 2 {
      var t := r.topic(parts[0]);
      assert t in topics && parts[0] in parts && parts[1] in parts;
      if TwoJobs(parts, r) {
        var i, j :| 0 <= i < j < |parts| && r.topic(parts[i]) != r.topic(parts[j]);
        MoreThanOne(topics, r.topic(parts[i]), r.topic(parts[j]));
      } else {
        assert forall k :: 0 < k < |parts| ==> r.topic(parts[0]) == r.topic(parts[k]);
        assert topics == {t};
      }
    }
  }

  lemma MoreThanOne<T>(s: set<T>, a: T, b: T)
    requires a in s && b in s && a != b
    ensures |s| > 1
  {
    assert {a, b} <= s;
    assert |s| == |s - {a, b}| + |{a, b}|;
  }

  /** `p` is the piece without the edges around it. */
  ghost predicate IsTrimmed(piece: string, p: string) {
    && p != "" && !IsEdge(p[0]) && !IsEdge(p[|p| - 1])
    && exists before, after :: piece == before + p + after && AllEdges(before, IsEdge) && AllEdges(after, IsEdge)
  }

  lemma {:induction false} EdgesOnly(s: string, p: string, before: string, after: string)
    requires p != "" && !IsEdge(p[0]) && !IsEdge(p[|p| - 1])
    requires s == before + p + after && AllEdges(before, IsEdge) && AllEdges(after, IsEdge)
    ensures TrimRight(TrimLeft(s, IsEdge), IsEdge) == p
  {
    LeftEdges(before, p + after);
    assert s == before + (p + after);
    RightEdges(p, after);
  }

  lemma {:induction false} LeftEdges(before: string, rest: string)
    requires AllEdges(before, IsEdge) && rest != "" && !IsEdge(rest[0])
    ensures TrimLeft(before + rest, IsEdge) == rest
  {
    if before == "" {
      assert before + rest == rest;
    } else {
      assert (before + rest)[1..] == before[1..] + rest;
      LeftEdges(before[1..], rest);
    }
  }

  lemma {:induction false} RightEdges(front: string, after: string)
    requires AllEdges(after, IsEdge) && front != "" && !IsEdge(front[|front| - 1])
    ensures TrimRight(front + after, IsEdge) == front
  {
    if after == "" {
      assert front + after == front;
    } else {
      assert (front + after)[..|front + after| - 1] == front + after[..|after| - 1];
      RightEdges(front, after[..|after| - 1]);
    }
  }

  lemma TrimmedWhen(piece: string, p: string)
    ensures IsTrimmed(piece, p) <==> p != "" && p == TrimRight(TrimLeft(piece, IsEdge), IsEdge)
  {
    var before, after := Trims(piece, IsEdge);
    if IsTrimmed(piece, p) {
      var b, a :| piece == b + p + a && AllEdges(b, IsEdge) && AllEdges(a, IsEdge);
      EdgesOnly(piece, p, b, a);
    }
  }

  lemma {:induction false} TrimmedMembers(pieces: seq<string>, p: string)
    ensures p in Trimmed(pieces) <==> exists i :: 0 <= i < |pieces| && IsTrimmed(pieces[i], p)
  {
    hide IsTrimmed, TrimLeft, TrimRight, IsEdge;
    if pieces != [] {
      TrimmedMembers(pieces[1..], p);
      TrimmedWhen(pieces[0], p);
      assert pieces == [pieces[0]] + pieces[1..];
    }
  }

  lemma {:induction false} LongMembers(parts: seq<string>, p: string)
    ensures p in LongEnough(parts) <==> p in parts && |Words(p)| >= 3
  {
    if parts != [] {
      LongMembers(parts[1..], p);
      assert parts == [parts[0]] + parts[1..];
    }
  }

  /** Without an instruction about sources the parts are exactly the pieces of the message, without
  blanks, commas and semicolons around them, that have at least three words. */
  lemma CandidatesExactly(question: string, p: string, r: Reader)
    requires !AnyInstruction(Trimmed(r.cut(question)), r)
    ensures p in Candidates(question, r) <==>
            |Words(p)| >= 3 && exists i :: 0 <= i < |r.cut(question)| && IsTrimmed(r.cut(question)[i], p)
  {
    hide IsTrimmed, Words, LongEnough, Trimmed;
    LongMembers(Trimmed(r.cut(question)), p);
    TrimmedMembers(r.cut(question), p);
  }

  function Flatten(groups: seq<seq<string>>): seq<string> {
    if groups == [] then [] else Flatten(groups[..|groups| - 1]) + groups[|groups| - 1]
  }

  /** How many parts are no instruction. */
  function Questions(parts: seq<string>, r: Reader): nat {
    if parts == [] then 0
    else Questions(parts[..|parts| - 1], r) + (if r.instruction(parts[|parts| - 1]) then 0 else 1)
  }

  /** Each joined text is one group of the parts with exactly one question in it. */
  ghost predicate OneEach(joined: seq<string>, groups: seq<seq<string>>, r: Reader) {
    && |groups| == |joined|
    && forall i :: 0 <= i < |joined| ==> joined[i] == Spaced(groups[i]) && Questions(groups[i], r) == 1
  }

  lemma {:induction false} QuestionsJoin(a: seq<string>, b: seq<string>, r: Reader)
    ensures Questions(a + b, r) == Questions(a, r) + Questions(b, r)
  {
    if b == [] {
      assert a + b == a;
    } else {
      assert (a + b)[..|a + b| - 1] == a + b[..|b| - 1];
      QuestionsJoin(a, b[..|b| - 1], r);
    }
  }

  lemma {:induction false} SpacedJoin(a: seq<string>, b: seq<string>)
    requires a != []
    ensures Spaced([Spaced(a)] + b) == Spaced(a + b)
  {
    if |a| == 1 {
      assert [Spaced(a)] + b == a + b;
    } else {
      assert (a + b)[1..] == a[1..] + b;
      SpacedJoin(a[1..], b);
      if b == [] {
        assert a + b == a && [Spaced(a)] + b == [Spaced(a)];
      } else {
        assert ([Spaced(a)] + b)[1..] == b == ([Spaced(a[1..])] + b)[1..];
        assert Spaced(a) + " " + Spaced(b) == a[0] + " " + (Spaced(a[1..]) + " " + Spaced(b));
      }
    }
  }

  ghost predicate Grouped(parts: seq<string>, r: Reader, groups: seq<seq<string>>) {
    var a := Attach(parts, r);
    OneEach(a.joined, groups, r) && Flatten(groups) + a.pending == parts && Questions(a.pending, r) == 0
  }

  lemma QuestionsPush(parts: seq<string>, part: string, r: Reader)
    ensures Questions(parts + [part], r) == Questions(parts, r) + (if r.instruction(part) then 0 else 1)
    ensures Questions([], r) == 0
  {
    assert (parts + [part])[..|parts|] == parts;
  }

  lemma FlattenPush(groups: seq<seq<string>>, group: seq<string>)
    ensures Flatten(groups + [group]) == Flatten(groups) + group
  {
    assert (groups + [group])[..|groups|] == groups;
  }

  lemma GroupedPush(parts: seq<string>, part: string, r: Reader, groups: seq<seq<string>>) returns (more: seq<seq<string>>)
    requires Grouped(parts, r, groups)
    ensures Grouped(parts + [part], r, more)
  {
    hide Spaced, Questions, Flatten;
    var before := Attach(parts, r);
    assert (parts + [part])[..|parts|] == parts;
    QuestionsPush(before.pending, part, r);
    var group := before.pending + [part];
    assert parts + [part] == Flatten(groups) + group;
    if r.instruction(part) {
      more := groups;
    } else {
      FlattenPush(groups, group);
      more := groups + [group];
      assert Flatten(more) + [] == Flatten(groups) + group;
    }
  }

  lemma {:induction false} AttachGroups(parts: seq<string>, r: Reader) returns (groups: seq<seq<string>>)
    ensures Grouped(parts, r, groups)
  {
    if parts == [] {
      groups := [];
    } else {
      hide Grouped;
      groups := AttachGroups(parts[..|parts| - 1], r);
      groups := GroupedPush(parts[..|parts| - 1], parts[|parts| - 1], r, groups);
      assert parts[..|parts| - 1] + [parts[|parts| - 1]] == parts;
    }
  }

  /** Instructions left over go to the last question. */
  lemma LastTakesMore(joined: seq<string>, groups: seq<seq<string>>, pending: seq<string>, r: Reader)
    requires OneEach(joined, groups, r) && joined != [] && Questions(pending, r) == 0
    ensures var n := |joined| - 1;
            var longer := groups[n := groups[n] + pending];
            && OneEach(joined[n := Spaced([joined[n]] + pending)], longer, r)
            && Flatten(longer) == Flatten(groups) + pending
  {
    hide Spaced;
    var n := |joined| - 1;
    var last := groups[n];
    var longer := groups[n := last + pending];
    assert longer[..n] == groups[..n];
    QuestionsJoin(last, pending, r);
    assert last != [];
    SpacedJoin(last, pending);
  }

  /** Attaching throws no part away, reorders none and never merges two questions: the joined texts
  are consecutive groups of the parts with one question each, unless there is no question at all. */
  lemma AttachedKeepsQuestions(parts: seq<string>, r: Reader) returns (groups: seq<seq<string>>)
    requires parts != []
    ensures Flatten(groups) == parts
    ensures if Questions(parts, r) == 0 then groups == [parts] && Attached(parts, r) == [Spaced(parts)]
            else OneEach(Attached(parts, r), groups, r)
  {
    hide Spaced;
    var a := Attach(parts, r);
    groups := AttachGroups(parts, r);
    GroupQuestions(a.joined, groups, r);
    QuestionsJoin(Flatten(groups), a.pending, r);
    assert Flatten(groups) + a.pending == parts;
    if a.joined == [] {
      assert groups == [] && a.pending == parts;
      assert Flatten([parts]) == [] + parts by { assert [parts][..0] == []; }
      groups := [parts];
    } else if a.pending != [] {
      LastTakesMore(a.joined, groups, a.pending, r);
      groups := groups[|groups| - 1 := groups[|groups| - 1] + a.pending];
    }
  }

  lemma {:induction false} GroupQuestions(joined: seq<string>, groups: seq<seq<string>>, r: Reader)
    requires OneEach(joined, groups, r)
    ensures Questions(Flatten(groups), r) == |groups|
  {
    if groups != [] {
      GroupQuestions(joined[..|joined| - 1], groups[..|groups| - 1], r);
      QuestionsJoin(Flatten(groups[..|groups| - 1]), groups[|groups| - 1], r);
    }
  }
}

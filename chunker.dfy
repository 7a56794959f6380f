/** The sentence chunker `chunkText` (packages/admin/src/lib/chunker.ts; the
    copies in packages/admin/server.js and scripts/indexer.js are the same code).

    Text is split into sentences at `.`, `!` and `?`; the trimmed, non-blank
    sentences are packed greedily into chunks joined by ". " whose length stays
    within `maxChunkSize`; every chunk is closed with "." and chunks of 20
    characters or fewer are dropped.

    The specification is the function `Chunks`, built from `Sentences` and the
    greedy grouping `Groups`; the method `ChunkText` is the source's loop proved
    equal to it, and the lemmas state what the grouping guarantees. */
module Chunker {
  import opened Text

  /** The default `maxChunkSize`. */
  const DefaultMaxChunkSize := 500

  /** Chunks of this length or shorter are dropped. */
  const MinChunkLength := 20

  /** What `potentialChunk` puts between two sentences. */
  const Joiner := ". "

  predicate IsTerminator(c: char) {
    c == '.' || c == '!' || c == '?'
  }

  predicate HasNoTerminator(s: string) {
    forall c :: c in s ==> !IsTerminator(c)
  }

  /** The characters of `text` that are not terminators, in order. */
  function WithoutTerminators(text: string): string
    decreases |text|
  {
    if text == [] then []
    else (if IsTerminator(text[0]) then [] else [text[0]]) + WithoutTerminators(text[1..])
  }

  function CountTerminators(text: string): nat
    decreases |text|
  {
    if text == [] then 0
    else (if IsTerminator(text[0]) then 1 else 0) + CountTerminators(text[1..])
  }

  /** `text.split(/[.!?]/)`: the fragments between single terminators. The
      source splits at runs of terminators; the two differ only by empty
      fragments, which `NonBlank` removes in either case. */
  function Split(text: string): (fragments: seq<string>)
    ensures |fragments| >= 1
    decreases |text|
  {
    if text == [] then [""]
    else
      var rest := Split(text[1..]);
      if IsTerminator(text[0]) then [""] + rest
      else [[text[0]] + rest[0]] + rest[1..]
  }

  /** One fragment per terminator, plus one. */
  lemma {:induction false} SplitCount(text: string)
    ensures |Split(text)| == CountTerminators(text) + 1
    decreases |text|
  {
    if text != [] {
      SplitCount(text[1..]);
    }
  }

  /** No fragment holds a terminator. */
  lemma {:induction false} SplitNoTerminator(text: string)
    ensures forall f :: f in Split(text) ==> HasNoTerminator(f)
    decreases |text|
  {
    if text != [] {
      var rest := Split(text[1..]);
      SplitNoTerminator(text[1..]);
      if IsTerminator(text[0]) {
        assert forall f :: f in [""] + rest ==> f == "" || f in rest;
      } else {
        var r := [[text[0]] + rest[0]] + rest[1..];
        assert rest[0] in rest;
        assert forall f :: f in r ==> f == r[0] || f in rest;
      }
    }
  }

  /** The cuts fall exactly at the terminators: text up to the first
      terminator is the first fragment, and splitting resumes after it. */
  lemma {:induction false} SplitAtTerminator(a: string, t: char, b: string)
    requires HasNoTerminator(a) && IsTerminator(t)
    ensures Split(a + [t] + b) == [a] + Split(b)
    decreases |a|
  {
    var s := a + [t] + b;
    if a == [] {
      assert s[0] == t && s[1..] == b;
    } else {
      assert s[0] == a[0] && a[0] in a;
      assert s[1..] == a[1..] + [t] + b;
      assert HasNoTerminator(a[1..]) by {
        forall c | c in a[1..] ensures !IsTerminator(c) { assert c in a; }
      }
      SplitAtTerminator(a[1..], t, b);
      assert [a[0]] + a[1..] == a;
    }
  }

  /** Text without a terminator is one fragment, itself. */
  lemma {:induction false} SplitWithoutTerminator(a: string)
    requires HasNoTerminator(a)
    ensures Split(a) == [a]
    decreases |a|
  {
    if a != [] {
      assert a[0] in a;
      assert HasNoTerminator(a[1..]) by {
        forall c | c in a[1..] ensures !IsTerminator(c) { assert c in a; }
      }
      SplitWithoutTerminator(a[1..]);
      assert [a[0]] + a[1..] == a;
    }
  }

  /** The fragments hold every other character of `text`, in order. */
  lemma {:induction false} SplitFlatten(text: string)
    ensures Flatten(Split(text)) == WithoutTerminators(text)
    decreases |text|
  {
    if text != [] {
      var rest := Split(text[1..]);
      SplitFlatten(text[1..]);
      if IsTerminator(text[0]) {
        assert ([""] + rest)[1..] == rest;
      } else {
        var r := [[text[0]] + rest[0]] + rest[1..];
        assert r[1..] == rest[1..];
        assert Flatten(rest) == rest[0] + Flatten(rest[1..]);
      }
    }
  }

  /** `.filter((s) => s.trim().length > 0)`. */
  function NonBlank(fragments: seq<string>): (kept: seq<string>)
    ensures |kept| <= |fragments|
    decreases |fragments|
  {
    if fragments == [] then []
    else
      var rest := NonBlank(fragments[1..]);
      if Trim(fragments[0]) != [] then [fragments[0]] + rest else rest
  }

  /** `NonBlank` keeps exactly the fragments that are not blank. */
  lemma {:induction false} NonBlankKeeps(fragments: seq<string>)
    ensures forall f :: f in NonBlank(fragments) ==> f in fragments && Trim(f) != []
    ensures forall f :: f in fragments && Trim(f) != [] ==> f in NonBlank(fragments)
    decreases |fragments|
  {
    if fragments != [] {
      NonBlankKeeps(fragments[1..]);
      assert fragments == [fragments[0]] + fragments[1..];
    }
  }

  /** A sentence as the loop sees it: non-empty, trimmed, free of terminators. */
  predicate IsSentence(s: string) {
    s != [] && IsTrimmed(s) && HasNoTerminator(s)
  }

  predicate AllSentences(group: seq<string>) {
    forall s :: s in group ==> IsSentence(s)
  }

  /** The fragments trimmed, the blank ones left out, in order. */
  function SentencesOf(fragments: seq<string>): (sentences: seq<string>)
    ensures |sentences| <= |fragments|
    ensures forall s :: s in sentences ==> s != [] && IsTrimmed(s)
    decreases |fragments|
  {
    if fragments == [] then []
    else
      var t := Trim(fragments[0]);
      var rest := SentencesOf(fragments[1..]);
      assert forall s :: s in (if t == [] then [] else [t]) + rest ==> s == t || s in rest;
      (if t == [] then [] else [t]) + rest
  }

  /** Trimming keeps fragments free of terminators. */
  lemma {:induction false} SentencesOfFree(fragments: seq<string>)
    requires forall f :: f in fragments ==> HasNoTerminator(f)
    ensures forall s :: s in SentencesOf(fragments) ==> HasNoTerminator(s)
    decreases |fragments|
  {
    if fragments != [] {
      var t := Trim(fragments[0]);
      assert fragments[0] in fragments;
      TrimChars(fragments[0]);
      assert forall f :: f in fragments[1..] ==> f in fragments;
      SentencesOfFree(fragments[1..]);
      var rest := SentencesOf(fragments[1..]);
      assert forall s :: s in (if t == [] then [] else [t]) + rest ==> s == t || s in rest;
    }
  }

  /** There are as many sentences as non-blank fragments. */
  lemma {:induction false} SentencesOfCount(fragments: seq<string>)
    ensures |SentencesOf(fragments)| == |NonBlank(fragments)|
    decreases |fragments|
  {
    if fragments != [] {
      SentencesOfCount(fragments[1..]);
    }
  }

  /** Dropping blank fragments and trimming each is filtering the blank ones
      (`NonBlank`) and then trimming the rest, one by one. */
  lemma {:induction false} SentencesOfFiltered(fragments: seq<string>, i: int)
    requires 0 <= i < |NonBlank(fragments)|
    ensures i < |SentencesOf(fragments)| && SentencesOf(fragments)[i] == Trim(NonBlank(fragments)[i])
    decreases |fragments|
  {
    SentencesOfCount(fragments);
    var kept := NonBlank(fragments[1..]);
    var rest := SentencesOf(fragments[1..]);
    var t := Trim(fragments[0]);
    if t != [] {
      assert SentencesOf(fragments) == [t] + rest;
      assert NonBlank(fragments) == [fragments[0]] + kept;
      if i > 0 {
        SentencesOfFiltered(fragments[1..], i - 1);
      }
    } else {
      assert SentencesOf(fragments) == [] + rest == rest;
      SentencesOfFiltered(fragments[1..], i);
    }
  }

  /** The trimmed, non-blank sentences of `text`, in order. */
  function Sentences(text: string): (sentences: seq<string>)
    ensures forall s :: s in sentences ==> IsSentence(s)
    ensures |sentences| <= CountTerminators(text) + 1
  {
    SplitCount(text);
    SplitNoTerminator(text);
    SentencesOfFree(Split(text));
    SentencesOf(Split(text))
  }

  /** A chunk body: its sentences joined by ". ". */
  function Body(group: seq<string>): (body: string) {
    Join(group, Joiner)
  }

  /** The greedy packing of lines 8-29: `current` is the group being filled
      (`currentChunk`); a sentence joins it while the joined length stays within
      `maxChunkSize`, and otherwise the group is flushed and the sentence opens
      the next one. */
  function GroupFrom(sentences: seq<string>, current: seq<string>, maxChunkSize: int): seq<seq<string>>
    decreases |sentences|
  {
    if sentences == [] then
      (if current == [] then [] else [current])
    else if |Body(current + [sentences[0]])| <= maxChunkSize then
      GroupFrom(sentences[1..], current + [sentences[0]], maxChunkSize)
    else
      (if current == [] then [] else [current]) + GroupFrom(sentences[1..], [sentences[0]], maxChunkSize)
  }

  function Groups(sentences: seq<string>, maxChunkSize: int): seq<seq<string>> {
    GroupFrom(sentences, [], maxChunkSize)
  }

  /** Each group's body closed with ".", before the length filter. */
  function Closed(groups: seq<seq<string>>): (chunks: seq<string>)
    ensures |chunks| == |groups|
    decreases |groups|
  {
    if groups == [] then [] else [Body(groups[0]) + "."] + Closed(groups[1..])
  }

  /** `.filter((chunk) => chunk.length > 20)`. */
  function KeepLong(chunks: seq<string>): (kept: seq<string>)
    ensures |kept| <= |chunks|
    decreases |chunks|
  {
    if chunks == [] then []
    else
      var rest := KeepLong(chunks[1..]);
      if |chunks[0]| > MinChunkLength then [chunks[0]] + rest else rest
  }

  /** `KeepLong` keeps exactly the chunks longer than 20 characters. */
  lemma {:induction false} KeepLongKeeps(chunks: seq<string>)
    ensures forall c :: c in KeepLong(chunks) ==> c in chunks && |c| > MinChunkLength
    ensures forall c :: c in chunks && |c| > MinChunkLength ==> c in KeepLong(chunks)
    decreases |chunks|
  {
    if chunks != [] {
      KeepLongKeeps(chunks[1..]);
      assert chunks == [chunks[0]] + chunks[1..];
    }
  }

  /** What `chunkText(text, maxChunkSize)` returns. */
  function Chunks(text: string, maxChunkSize: int): seq<string> {
    KeepLong(Closed(Groups(Sentences(text), maxChunkSize)))
  }

  /** Every terminator in `body` is the "." of a ". " joiner. In particular the
      last character of a body is never a terminator. */
  predicate TerminatorsOnlyInJoiners(body: string) {
    forall k :: 0 <= k < |body| && IsTerminator(body[k]) ==>
      body[k] == '.' && k + 1 < |body| && body[k + 1] == ' '
  }

  /** A returned chunk: longer than 20 characters, one "." appended to a body
      whose only terminators are the joiners' ".". */
  predicate IsChunk(c: string) {
    |c| > MinChunkLength && c[|c| - 1] == '.' && TerminatorsOnlyInJoiners(c[..|c| - 1])
  }

  // ----- Lemmas about bodies -----

  lemma {:induction false} BodyShape(group: seq<string>)
    requires group != []
    requires forall s :: s in group ==> IsSentence(s)
    ensures Body(group) != [] && !IsSpace(Body(group)[0])
    ensures TerminatorsOnlyInJoiners(Body(group))
    decreases |group|
  {
    assert group[0] in group;
    if |group| > 1 {
      var head, rest := group[0], Body(group[1..]);
      assert forall s :: s in group[1..] ==> s in group;
      BodyShape(group[1..]);
      var b := Body(group);
      assert b == head + Joiner + rest;
      assert forall k :: 0 <= k < |head| ==> b[k] == head[k] && head[k] in head;
      assert forall k :: |head| + 2 <= k < |b| ==> b[k] == rest[k - |head| - 2];
      assert b[|head|] == '.' && b[|head| + 1] == ' ';
    }
  }

  lemma BodySnoc(group: seq<string>, s: string)
    ensures Body(group + [s]) == if group == [] then s else Body(group) + Joiner + s
  {
    if group == [] {
      assert group + [s] == [s];
    } else {
      JoinSnoc(group, s, Joiner);
    }
  }

  lemma {:induction false} BodyContains(group: seq<string>, i: nat)
    requires i < |group|
    ensures |Body(group)| >= |group[i]|
    ensures |group| > 1 ==> |Body(group)| > |group[i]|
    decreases |group|
  {
    if i > 0 {
      BodyContains(group[1..], i - 1);
    } else if |group| > 1 {
      assert Body(group) == group[0] + Joiner + Body(group[1..]);
    }
  }

  // ----- Lemmas about the greedy grouping -----

  predicate NoEmptyGroup(groups: seq<seq<string>>) {
    forall i :: 0 <= i < |groups| ==> groups[i] != []
  }

  /** Greedy maximality: each group but the first would have exceeded
      `maxChunkSize` had it been joined, with ". ", to the group before it. */
  predicate IsGreedy(groups: seq<seq<string>>, maxChunkSize: int) {
    forall i :: 0 < i < |groups| ==>
      groups[i] != [] && |Body(groups[i - 1])| + |Joiner| + |groups[i][0]| > maxChunkSize
  }

  /** No sentence is lost, added or reordered: the groups, concatenated, are
      the pending group followed by the remaining sentences. */
  lemma {:induction false} GroupFromCovers(sentences: seq<string>, current: seq<string>, maxChunkSize: int)
    ensures Flatten(GroupFrom(sentences, current, maxChunkSize)) == current + sentences
    decreases |sentences|
  {
    if sentences == [] {
      if current != [] {
        assert Flatten([current]) == current + Flatten([current][1..]);
      }
    } else {
      var s, rest := sentences[0], sentences[1..];
      assert sentences == [s] + rest;
      if |Body(current + [s])| <= maxChunkSize {
        GroupFromCovers(rest, current + [s], maxChunkSize);
      } else {
        GroupFromCovers(rest, [s], maxChunkSize);
        var head: seq<seq<string>> := if current == [] then [] else [current];
        FlattenAppend(head, GroupFrom(rest, [s], maxChunkSize));
        assert Flatten(head) == current by {
          if current != [] { assert Flatten(head) == current + Flatten(head[1..]); }
        }
      }
    }
  }

  /** The pending group opens the first group produced, and no group is empty. */
  lemma {:induction false} GroupFromShape(sentences: seq<string>, current: seq<string>, maxChunkSize: int)
    ensures NoEmptyGroup(GroupFrom(sentences, current, maxChunkSize))
    ensures current != [] ==>
      |GroupFrom(sentences, current, maxChunkSize)| > 0 &&
      current <= GroupFrom(sentences, current, maxChunkSize)[0]
    decreases |sentences|
  {
    if sentences != [] {
      var s, rest := sentences[0], sentences[1..];
      if |Body(current + [s])| <= maxChunkSize {
        GroupFromShape(rest, current + [s], maxChunkSize);
      } else {
        GroupFromShape(rest, [s], maxChunkSize);
      }
    }
  }

  /** Every group keeps within `maxChunkSize`, except a group of one sentence,
      which is emitted whole however long it is. */
  lemma {:induction false} GroupFromBounded(sentences: seq<string>, current: seq<string>, maxChunkSize: int)
    requires |Body(current)| <= maxChunkSize || |current| <= 1
    ensures forall g :: g in GroupFrom(sentences, current, maxChunkSize) ==>
      |Body(g)| <= maxChunkSize || |g| == 1
    decreases |sentences|
  {
    if sentences != [] {
      var s, rest := sentences[0], sentences[1..];
      if |Body(current + [s])| <= maxChunkSize {
        GroupFromBounded(rest, current + [s], maxChunkSize);
      } else {
        GroupFromBounded(rest, [s], maxChunkSize);
      }
    }
  }

  lemma {:induction false} GroupFromGreedy(sentences: seq<string>, current: seq<string>, maxChunkSize: int)
    ensures IsGreedy(GroupFrom(sentences, current, maxChunkSize), maxChunkSize)
    decreases |sentences|
  {
    GroupFromShape(sentences, current, maxChunkSize);
    if sentences != [] {
      var s, rest := sentences[0], sentences[1..];
      if |Body(current + [s])| <= maxChunkSize {
        GroupFromGreedy(rest, current + [s], maxChunkSize);
      } else if current == [] {
        GroupFromGreedy(rest, [s], maxChunkSize);
      } else {
        var tail := GroupFrom(rest, [s], maxChunkSize);
        GroupFromGreedy(rest, [s], maxChunkSize);
        GroupFromShape(rest, [s], maxChunkSize);
        var gs := [current] + tail;
        assert GroupFrom(sentences, current, maxChunkSize) == gs;
        assert gs[1] == tail[0] && tail[0][0] == s;
        BodySnoc(current, s);
        assert forall j :: 0 <= j < |tail| ==> gs[j + 1] == tail[j];
      }
    }
  }

  lemma {:induction false} FlattenCountsGroups(groups: seq<seq<string>>)
    requires NoEmptyGroup(groups)
    ensures |groups| <= |Flatten(groups)|
    decreases |groups|
  {
    if groups != [] {
      FlattenCountsGroups(groups[1..]);
    }
  }

  /** The bodies of the groups (each group joined by ". ") in order. */
  function Bodies(groups: seq<seq<string>>): (bodies: seq<string>)
    ensures |bodies| == |groups|
    ensures forall i :: 0 <= i < |groups| ==> bodies[i] == Body(groups[i])
  {
    seq(|groups|, i requires 0 <= i < |groups| => Body(groups[i]))
  }

  lemma {:induction false} JoinBodies(groups: seq<seq<string>>)
    requires groups != [] && NoEmptyGroup(groups)
    ensures Join(Bodies(groups), Joiner) == Join(Flatten(groups), Joiner)
    decreases |groups|
  {
    if |groups| == 1 {
      assert Flatten(groups) == groups[0] + Flatten(groups[1..]);
      assert Flatten(groups[1..]) == [];
      assert groups[0] + [] == groups[0];
      assert Join(Bodies(groups), Joiner) == Body(groups[0]);
    } else {
      var rest := groups[1..];
      JoinBodies(rest);
      assert Bodies(groups) == [Body(groups[0])] + Bodies(rest);
      FlattenCountsGroups(rest);
      JoinAppend(groups[0], Flatten(rest), Joiner);
    }
  }

  lemma {:induction false} ClosedAt(groups: seq<seq<string>>, i: nat)
    requires i < |groups|
    ensures Closed(groups)[i] == Body(groups[i]) + "."
    decreases |groups|
  {
    if i > 0 {
      ClosedAt(groups[1..], i - 1);
    }
  }

  lemma {:induction false} FlattenMember<T>(groups: seq<seq<T>>, i: nat, x: T)
    requires i < |groups| && x in groups[i]
    ensures x in Flatten(groups)
    decreases |groups|
  {
    if i > 0 {
      FlattenMember(groups[1..], i - 1, x);
    }
  }

  lemma {:induction false} FindInFlatten(groups: seq<seq<string>>, s: string) returns (g: seq<string>, i: nat)
    requires s in Flatten(groups)
    ensures g in groups && i < |g| && g[i] == s
    decreases |groups|
  {
    assert groups != [];
    if s in groups[0] {
      g := groups[0];
      i :| i < |g| && g[i] == s;
    } else {
      g, i := FindInFlatten(groups[1..], s);
    }
  }

  // ----- Properties of chunkText -----

  /** Before the length filter, the chunk bodies are the sentences, grouped
      without loss or reordering: joining the bodies with ". " gives the
      sentences joined with ". ", each chunk is its body closed with ".", and
      there are no more chunks than sentences. */
  lemma SentencesPreserved(sentences: seq<string>, maxChunkSize: int)
    ensures Flatten(Groups(sentences, maxChunkSize)) == sentences
    ensures |Groups(sentences, maxChunkSize)| <= |sentences|
    ensures Join(Bodies(Groups(sentences, maxChunkSize)), Joiner) == Join(sentences, Joiner)
    ensures forall i :: 0 <= i < |Groups(sentences, maxChunkSize)| ==>
      Closed(Groups(sentences, maxChunkSize))[i] == Bodies(Groups(sentences, maxChunkSize))[i] + "."
  {
    var gs := Groups(sentences, maxChunkSize);
    GroupFromCovers(sentences, [], maxChunkSize);
    GroupFromShape(sentences, [], maxChunkSize);
    FlattenCountsGroups(gs);
    if gs != [] {
      JoinBodies(gs);
    }
    forall i | 0 <= i < |gs| ensures Closed(gs)[i] == Bodies(gs)[i] + "." {
      ClosedAt(gs, i);
    }
  }

  /** Before the length filter every chunk body is within `maxChunkSize`, unless
      it is a single sentence longer than that, emitted whole. */
  lemma ChunksBounded(sentences: seq<string>, maxChunkSize: int)
    ensures forall g :: g in Groups(sentences, maxChunkSize) ==>
      |Body(g)| <= maxChunkSize || |g| == 1
  {
    GroupFromBounded(sentences, [], maxChunkSize);
  }

  /** A sentence longer than `maxChunkSize` forms a chunk body on its own: it
      is neither split nor truncated. */
  lemma OversizedSentenceAlone(sentences: seq<string>, maxChunkSize: int, s: string)
    requires s in sentences && |s| > maxChunkSize
    ensures [s] in Groups(sentences, maxChunkSize)
  {
    var gs := Groups(sentences, maxChunkSize);
    GroupFromCovers(sentences, [], maxChunkSize);
    GroupFromBounded(sentences, [], maxChunkSize);
    var g, i := FindInFlatten(gs, s);
    BodyContains(g, i);
    assert g == [g[0]];
  }

  /** Greedy maximality: a chunk is flushed (line 19) only when appending ". "
      and the next sentence would have exceeded `maxChunkSize`. */
  lemma ChunksGreedy(sentences: seq<string>, maxChunkSize: int)
    ensures IsGreedy(Groups(sentences, maxChunkSize), maxChunkSize)
  {
    GroupFromGreedy(sentences, [], maxChunkSize);
  }

  /** Every returned chunk is longer than 20 characters and ends with exactly
      one "." appended to a body whose terminators are all ". " joiners; so the
      `endsWith('.')` test of line 27 never holds. */
  lemma ChunksShape(text: string, maxChunkSize: int)
    ensures forall c :: c in Chunks(text, maxChunkSize) ==> IsChunk(c)
  {
    var gs := Groups(Sentences(text), maxChunkSize);
    var closed := Closed(gs);
    KeepLongKeeps(closed);
    forall c | c in KeepLong(closed) ensures IsChunk(c) {
      assert c in closed && |c| > MinChunkLength;
      var i :| 0 <= i < |closed| && closed[i] == c;
      GroupOfSentences(Sentences(text), maxChunkSize, i);
      ClosedShape(gs, i, c);
    }
    assert Chunks(text, maxChunkSize) == KeepLong(closed);
  }

  /** Each group of sentences is a non-empty run of sentences. */
  lemma GroupOfSentences(sentences: seq<string>, maxChunkSize: int, i: int)
    requires AllSentences(sentences)
    requires 0 <= i < |Groups(sentences, maxChunkSize)|
    ensures Groups(sentences, maxChunkSize)[i] != []
    ensures AllSentences(Groups(sentences, maxChunkSize)[i])
  {
    var gs := Groups(sentences, maxChunkSize);
    GroupFromShape(sentences, [], maxChunkSize);
    GroupFromCovers(sentences, [], maxChunkSize);
    forall s | s in gs[i] ensures IsSentence(s) {
      FlattenMember(gs, i, s);
    }
  }

  /** A closed group of sentences that survives the length filter is a chunk:
      one "." after a body whose only terminators are the joiners'. */
  lemma ClosedShape(groups: seq<seq<string>>, i: int, c: string)
    requires 0 <= i < |groups| && groups[i] != [] && AllSentences(groups[i])
    requires c == Closed(groups)[i] && |c| > MinChunkLength
    ensures IsChunk(c)
  {
    ClosedAt(groups, i);
    BodyShape(groups[i]);
    assert c[..|c| - 1] == Body(groups[i]);
  }

  lemma {:induction false} WithoutTerminatorsOfBlank(text: string)
    requires forall c :: c in text ==> IsSpace(c) || IsTerminator(c)
    ensures AllSpace(WithoutTerminators(text))
    decreases |text|
  {
    if text != [] {
      assert text[0] in text;
      assert forall c :: c in text[1..] ==> c in text;
      WithoutTerminatorsOfBlank(text[1..]);
    }
  }

  lemma {:induction false} SentencesOfBlank(fragments: seq<string>)
    requires forall f :: f in fragments ==> Trim(f) == []
    ensures SentencesOf(fragments) == []
    decreases |fragments|
  {
    if fragments != [] {
      assert fragments[0] in fragments;
      assert forall f :: f in fragments[1..] ==> f in fragments;
      SentencesOfBlank(fragments[1..]);
    }
  }

  /** Empty, white-space-only or punctuation-only text has no sentences and
      so no chunks. */
  lemma BlankTextHasNoChunks(text: string, maxChunkSize: int)
    requires forall c :: c in text ==> IsSpace(c) || IsTerminator(c)
    ensures Sentences(text) == []
    ensures Chunks(text, maxChunkSize) == []
  {
    var fragments := Split(text);
    SplitFlatten(text);
    WithoutTerminatorsOfBlank(text);
    forall f | f in fragments ensures Trim(f) == [] {
      var i :| 0 <= i < |fragments| && fragments[i] == f;
      assert AllSpace(f) by {
        forall c | c in f ensures IsSpace(c) {
          FlattenMember(fragments, i, c);
        }
      }
    }
    SentencesOfBlank(fragments);
  }

  /** There are never more chunks than non-blank sentences. */
  lemma ChunkCountBound(text: string, maxChunkSize: int)
    ensures |Chunks(text, maxChunkSize)| <= |Sentences(text)|
  {
    SentencesPreserved(Sentences(text), maxChunkSize);
  }

  // ----- The source's loop -----

  /** `potentialChunk` (lines 12-13): the sentence appended to the chunk being
      built, after ". " unless that chunk is empty. */
  function Extended(currentChunk: string, sentence: string): string {
    currentChunk + (if currentChunk != "" then Joiner else "") + sentence
  }

  /** The loop of lines 8-29 as a recursive function over the position `i` of
      the next sentence and the chunk being built; `PackIsGrouping` shows it
      computes the closed bodies of `GroupFrom`. */
  function PackFrom(sentences: seq<string>, i: nat, currentChunk: string, maxChunkSize: int): seq<string>
    requires i <= |sentences|
    decreases |sentences| - i
  {
    if i == |sentences| then
      (if currentChunk == "" then [] else [currentChunk + "."])
    else if |Extended(currentChunk, sentences[i])| <= maxChunkSize then
      PackFrom(sentences, i + 1, Extended(currentChunk, sentences[i]), maxChunkSize)
    else
      (if currentChunk == "" then [] else [currentChunk + "."])
      + PackFrom(sentences, i + 1, sentences[i], maxChunkSize)
  }

  lemma {:induction false} PackIsGrouping(sentences: seq<string>, i: nat, current: seq<string>, maxChunkSize: int)
    requires i <= |sentences|
    requires AllSentences(sentences) && AllSentences(current)
    ensures PackFrom(sentences, i, Body(current), maxChunkSize) == Closed(GroupFrom(sentences[i..], current, maxChunkSize))
    decreases |sentences| - i
  {
    if current != [] {
      BodyShape(current);
    }
    if i == |sentences| {
      assert sentences[i..] == [];
      if current != [] {
        assert Closed([current]) == [Body(current) + "."] + Closed([current][1..]);
      }
    } else {
      var s := sentences[i];
      assert s in sentences;
      assert sentences[i..][0] == s && sentences[i..][1..] == sentences[i + 1..];
      BodySnoc(current, s);
      assert Extended(Body(current), s) == Body(current + [s]);
      if |Body(current + [s])| <= maxChunkSize {
        assert AllSentences(current + [s]);
        PackIsGrouping(sentences, i + 1, current + [s], maxChunkSize);
      } else {
        assert Body([s]) == s;
        PackIsGrouping(sentences, i + 1, [s], maxChunkSize);
        var tail := GroupFrom(sentences[i + 1..], [s], maxChunkSize);
        if current != [] {
          assert ([current] + tail)[1..] == tail;
        } else {
          assert [] + tail == tail;
        }
      }
    }
  }

  lemma ExtendedEnd(currentChunk: string, sentence: string)
    requires sentence != ""
    ensures Extended(currentChunk, sentence)[|Extended(currentChunk, sentence)| - 1] == sentence[|sentence| - 1]
  {
  }

  /** The specification of the chunker is the loop's function after the length
      filter. */
  lemma ChunksByPacking(text: string, maxChunkSize: int)
    ensures Chunks(text, maxChunkSize) == KeepLong(PackFrom(Sentences(text), 0, "", maxChunkSize))
  {
    assert Body([]) == "";
    assert Sentences(text)[0..] == Sentences(text);
    PackIsGrouping(Sentences(text), 0, [], maxChunkSize);
  }

  /** There is one sentence per non-blank fragment, and the `i`-th sentence
      is the `i`-th non-blank fragment trimmed. */
  lemma SentencesByFragment(text: string)
    ensures |Sentences(text)| == |NonBlank(Split(text))|
    ensures forall i :: 0 <= i < |NonBlank(Split(text))| ==> Sentences(text)[i] == Trim(NonBlank(Split(text))[i])
  {
    SentencesOfCount(Split(text));
    forall i | 0 <= i < |NonBlank(Split(text))|
      ensures Sentences(text)[i] == Trim(NonBlank(Split(text))[i])
    {
      SentencesOfFiltered(Split(text), i);
    }
  }

  /** Lines 8-29: each fragment is trimmed and either extends the chunk being
      built or closes it with "." and starts the next; the last chunk is closed
      after the loop. `trimmed` holds the trimmed fragments. */
  method PackSentences(sentences: seq<string>, ghost trimmed: seq<string>, maxChunkSize: int)
    returns (pending: seq<string>)
    requires |trimmed| == |sentences|
    requires forall i :: 0 <= i < |sentences| ==> Trim(sentences[i]) == trimmed[i]
    requires AllSentences(trimmed)
    ensures pending == PackFrom(trimmed, 0, "", maxChunkSize)
  {
    ghost var all := PackFrom(trimmed, 0, "", maxChunkSize);
    pending := [];
    var currentChunk := "";
    for i := 0 to |sentences|
      invariant currentChunk == "" || !IsTerminator(currentChunk[|currentChunk| - 1])
      invariant pending + PackFrom(trimmed, i, currentChunk, maxChunkSize) == all
    {
      var trimmedSentence := Trim(sentences[i]);
      assert trimmed[i] in trimmed;
      // `if (!trimmedSentence) continue` (line 10) never fires: blank
      // fragments were filtered out.
      assert IsSentence(trimmedSentence);
      assert trimmedSentence[|trimmedSentence| - 1] in trimmedSentence;
      var potentialChunk := Extended(currentChunk, trimmedSentence);
      ghost var rest := PackFrom(trimmed, i + 1, trimmedSentence, maxChunkSize);
      if |potentialChunk| <= maxChunkSize {
        ExtendedEnd(currentChunk, trimmedSentence);
        currentChunk := potentialChunk;
      } else {
        if currentChunk != "" {
          AppendAssoc(pending, [currentChunk + "."], rest);
          pending := pending + [currentChunk + "."];
        } else {
          assert [] + rest == rest;
        }
        currentChunk := trimmedSentence;
      }
    }
    if currentChunk != "" {
      var last := currentChunk[|currentChunk| - 1];
      pending := pending + [currentChunk + (if last == '.' then "" else ".")];
    }
  }

  /** `chunkText(text, maxChunkSize)`: the split and blank filter of lines 2-4,
      the loop, and the length filter of line 31. */
  method ChunkText(text: string, maxChunkSize: int) returns (chunks: seq<string>)
    ensures chunks == Chunks(text, maxChunkSize)
    ensures forall c :: c in chunks ==> IsChunk(c)
    ensures |chunks| <= |Sentences(text)|
  {
    var sentences := NonBlank(Split(text));
    SentencesByFragment(text);
    var pending := PackSentences(sentences, Sentences(text), maxChunkSize);
    chunks := KeepLong(pending);
    ChunksByPacking(text, maxChunkSize);
    ChunksShape(text, maxChunkSize);
    ChunkCountBound(text, maxChunkSize);
  }
}

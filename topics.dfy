/**
 * Flattening of the lesson's topic forest into the list behind the topic
 * selector (`getAllTopics`, `extractTopics` and `getTopicOptions` of the
 * StudentProgress component).
 */
module TopicFlattener {
  import opened Wrappers

  /** A curriculum topic; its sub-topics are `subSubject` (an absent list is the empty one). */
  datatype Topic = Topic(id: int, name: string, subSubject: seq<Topic>)

  /** The `{id, name}` object pushed for each visited topic. */
  datatype TopicEntry = TopicEntry(id: int, name: string)

  /** The `{value, label}` object handed to the topic selector (`label` is a reserved word here, hence `caption`). */
  datatype TopicOption = TopicOption(value: int, caption: string)

  function EntryOf(t: Topic): TopicEntry
  {
    TopicEntry(t.id, t.name)
  }

  /** Depth-first, pre-order listing of a forest: each topic, then its sub-topics, then its later siblings. */
  function Flatten(forest: seq<Topic>): seq<TopicEntry>
    decreases forest
  {
    if forest == [] then []
    else [EntryOf(forest[0])] + Flatten(forest[0].subSubject) + Flatten(forest[1..])
  }

  /** Total number of topics in a forest, roots and all descendants. */
  function Size(forest: seq<Topic>): nat
    decreases forest
  {
    if forest == [] then 0
    else 1 + Size(forest[0].subSubject) + Size(forest[1..])
  }

  /** `t` is one of the topics of `forest`, at any depth. */
  ghost predicate InForest(t: Topic, forest: seq<Topic>)
    decreases forest
  {
    exists i :: 0 <= i < |forest| && (forest[i] == t || InForest(t, forest[i].subSubject))
  }

  /** Flattening distributes over concatenation of sibling lists: siblings keep their order. */
  lemma {:induction false} FlattenAppend(a: seq<Topic>, b: seq<Topic>)
    ensures Flatten(a + b) == Flatten(a) + Flatten(b)
    decreases a
  {
    if a == [] {
      assert a + b == b;
    } else {
      assert (a + b)[0] == a[0];
      assert (a + b)[1..] == a[1..] + b;
      FlattenAppend(a[1..], b);
    }
  }

  /**
   * Pre-order, stated at one sibling position: everything before `forest[i]`,
   * then `forest[i]` itself, then its own sub-topics, then the later siblings.
   */
  lemma {:induction false} FlattenAt(forest: seq<Topic>, i: nat)
    requires i < |forest|
    ensures Flatten(forest) ==
      Flatten(forest[..i]) + [EntryOf(forest[i])] + Flatten(forest[i].subSubject) + Flatten(forest[i + 1..])
  {
    var tail := forest[i..];
    assert forest == forest[..i] + tail;
    FlattenAppend(forest[..i], tail);
    assert tail[0] == forest[i] && tail[1..] == forest[i + 1..];
    assert Flatten(tail) == [EntryOf(forest[i])] + Flatten(forest[i].subSubject) + Flatten(forest[i + 1..]);
  }

  /** One entry per topic: the flattened length is the node count of the forest. */
  lemma {:induction false} FlattenLength(forest: seq<Topic>)
    ensures |Flatten(forest)| == Size(forest)
    decreases forest
  {
    if forest != [] {
      FlattenLength(forest[0].subSubject);
      FlattenLength(forest[1..]);
    }
  }

  /** A topic without sub-topics contributes exactly its own entry. */
  lemma LeafContributesOne(t: Topic)
    requires t.subSubject == []
    ensures Flatten([t]) == [EntryOf(t)]
  {
    assert [t][1..] == [];
  }

  /** Every topic of the forest, at every depth, is listed. */
  lemma {:induction false} FlattenComplete(t: Topic, forest: seq<Topic>)
    requires InForest(t, forest)
    ensures EntryOf(t) in Flatten(forest)
    decreases forest
  {
    var i :| 0 <= i < |forest| && (forest[i] == t || InForest(t, forest[i].subSubject));
    FlattenAt(forest, i);
    if forest[i] != t {
      FlattenComplete(t, forest[i].subSubject);
    }
  }

  /** Every listed entry comes from a topic of the forest. */
  lemma {:induction false} FlattenSound(e: TopicEntry, forest: seq<Topic>)
    requires e in Flatten(forest)
    ensures exists t :: InForest(t, forest) && EntryOf(t) == e
    decreases forest
  {
    assert forest != [];
    var head := forest[0];
    if e == EntryOf(head) {
      assert InForest(head, forest) by { assert forest[0] == head; }
    } else if e in Flatten(head.subSubject) {
      FlattenSound(e, head.subSubject);
      var t :| InForest(t, head.subSubject) && EntryOf(t) == e;
      assert InForest(t, forest) by { assert InForest(t, forest[0].subSubject); }
    } else {
      FlattenSound(e, forest[1..]);
      var t :| InForest(t, forest[1..]) && EntryOf(t) == e;
      var j :| 0 <= j < |forest[1..]| && (forest[1..][j] == t || InForest(t, forest[1..][j].subSubject));
      assert forest[j + 1] == forest[1..][j];
      assert InForest(t, forest);
    }
  }

  /** The closure state of `getAllTopics`: the `allTopics` array that `extractTopics` pushes into. */
  class TopicCollector {
    var allTopics: seq<TopicEntry>

    constructor ()
      ensures allTopics == []
    {
      allTopics := [];
    }

    /** Pushes the pre-order listing of `topicArray` onto `allTopics`. */
    method ExtractTopics(topicArray: seq<Topic>)
      modifies this
      ensures allTopics == old(allTopics) + Flatten(topicArray)
      decreases topicArray
    {
      var i := 0;
      while i < |topicArray|
        invariant 0 <= i <= |topicArray|
        invariant allTopics == old(allTopics) + Flatten(topicArray[..i])
      {
        var topic := topicArray[i];
        allTopics := allTopics + [EntryOf(topic)];
        if |topic.subSubject| > 0 {
          ExtractTopics(topic.subSubject);
        }
        assert topicArray[..i + 1] == topicArray[..i] + [topic];
        FlattenAppend(topicArray[..i], [topic]);
        assert [topic][1..] == [];
        i := i + 1;
      }
      assert topicArray[..i] == topicArray;
    }
  }

  /** `getAllTopics`: the pre-order listing, one entry per topic of the forest. */
  method GetAllTopics(topics: seq<Topic>) returns (allTopics: seq<TopicEntry>)
    ensures allTopics == Flatten(topics)
    ensures |allTopics| == Size(topics)
  {
    var collector := new TopicCollector();
    collector.ExtractTopics(topics);
    allTopics := collector.allTopics;
    FlattenLength(topics);
  }

  /** The `map` of `getTopicOptions`: `{id, name}` relabelled as `{value, label}`. */
  function Relabel(entries: seq<TopicEntry>): (r: seq<TopicOption>)
    ensures |r| == |entries|
  {
    seq(|entries|, k requires 0 <= k < |entries| => TopicOption(entries[k].id, entries[k].name))
  }

  /** Reads an option back as the entry it was made from. */
  function Unlabel(options: seq<TopicOption>): (r: seq<TopicEntry>)
    ensures |r| == |options|
  {
    seq(|options|, k requires 0 <= k < |options| => TopicEntry(options[k].value, options[k].caption))
  }

  /** Relabelling loses nothing: id and name are kept, in the same order. */
  lemma RelabelRoundTrip(entries: seq<TopicEntry>)
    ensures Unlabel(Relabel(entries)) == entries
  {
  }

  /**
   * `getTopicOptions`: no options when the lesson has no topic list, otherwise
   * one option per topic of the forest, in pre-order.
   */
  method GetTopicOptions(topics: Option<seq<Topic>>) returns (options: seq<TopicOption>)
    ensures topics.None? ==> options == []
    ensures topics.Some? ==> Unlabel(options) == Flatten(topics.value)
    ensures topics.Some? ==> |options| == Size(topics.value)
  {
    if topics.None? {
      return [];
    }
    var allTopics := GetAllTopics(topics.value);
    options := Relabel(allTopics);
    RelabelRoundTrip(allTopics);
  }
}

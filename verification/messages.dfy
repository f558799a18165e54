/** Merging the messages of one departure (`_merge_messages`): the groups
    are read in order as one stream; a message whose non-empty id was seen
    before is dropped, every other message is kept in its simplified form.
    Messages without an id (or with an empty one) are never dropped. */
module Messages {
  import opened Common
  import opened Parsers

  /** A message as a departure reports it: everything but the timestamp. */
  datatype MessageView = MessageView(
    id: Option<string>, kind: Option<string>, code: Option<string>, category: Option<string>,
    priority: Option<string>, text: Option<string>, validFrom: Option<string>, validTo: Option<string>)

  /** The `simplified` dict: the message's own fields, its timestamp
      dropped. */
  function View(m: Message): (v: MessageView)
    ensures v.id == m.id && v.text == m.text
    ensures v.kind == m.kind && v.code == m.code && v.category == m.category && v.priority == m.priority
    ensures v.validFrom == m.validFrom && v.validTo == m.validTo
  {
    MessageView(m.id, m.kind, m.code, m.category, m.priority, m.text, m.validFrom, m.validTo)
  }

  /** The groups one after the other. */
  function Flatten(groups: seq<seq<Message>>): seq<Message> {
    if groups == [] then [] else groups[0] + Flatten(groups[1..])
  }

  /** The loop of the source: `seen` holds the ids already kept. */
  function Dedup(msgs: seq<Message>, seen: set<string>): (r: seq<MessageView>)
    ensures |r| <= |msgs|
    ensures forall i | 0 <= i < |r| && Present(r[i].id) :: r[i].id.value !in seen
    ensures forall i, j | 0 <= i < j < |r| && Present(r[i].id) :: r[i].id != r[j].id
  {
    if msgs == [] then []
    else
      var m := msgs[0];
      if Present(m.id) && m.id.value in seen then Dedup(msgs[1..], seen)
      else
        var rest := Dedup(msgs[1..], if Present(m.id) then seen + {m.id.value} else seen);
        [View(m)] + rest
  }

  /** `_merge_messages(*groups)` */
  function MergeMessages(groups: seq<seq<Message>>): (r: seq<MessageView>)
    ensures |r| <= |Flatten(groups)|
    ensures forall i, j | 0 <= i < j < |r| && Present(r[i].id) :: r[i].id != r[j].id
  {
    Dedup(Flatten(groups), {})
  }

  // ---------------------------------------------------------------------------
  // A reference definition by position

  /** The message at `i` survives: it has no usable id, or no earlier
      message has the same one. */
  predicate Kept(msgs: seq<Message>, i: int)
    requires 0 <= i < |msgs|
  {
    !Present(msgs[i].id) || forall j | 0 <= j < i :: msgs[j].id != msgs[i].id
  }

  /** The views of the kept messages at positions `k` and later, in order. */
  function KeptFrom(msgs: seq<Message>, k: nat): seq<MessageView>
    requires k <= |msgs|
    decreases |msgs| - k
  {
    if k == |msgs| then []
    else (if Kept(msgs, k) then [View(msgs[k])] else []) + KeptFrom(msgs, k + 1)
  }

  /** The usable ids of a list of messages. */
  function IdsOf(msgs: seq<Message>): set<string> {
    set j | 0 <= j < |msgs| && Present(msgs[j].id) :: msgs[j].id.value
  }

  /** Having kept the messages before `k`, the loop keeps exactly the
      messages from `k` on that the positional rule keeps. */
  lemma {:induction false} DedupFromPosition(msgs: seq<Message>, k: nat)
    requires k <= |msgs|
    ensures Dedup(msgs[k..], IdsOf(msgs[..k])) == KeptFrom(msgs, k)
    decreases |msgs| - k
  {
    if k < |msgs| {
      var m := msgs[k];
      var seen := IdsOf(msgs[..k]);
      assert msgs[k..][1..] == msgs[k + 1..];
      DedupFromPosition(msgs, k + 1);
      assert Present(m.id) ==> (m.id.value in seen <==> !Kept(msgs, k)) by {
        if Present(m.id) {
          if m.id.value in seen {
            var j :| 0 <= j < k && Present(msgs[..k][j].id) && msgs[..k][j].id.value == m.id.value;
            assert msgs[j].id == m.id;
          }
          if !Kept(msgs, k) {
            var j :| 0 <= j < k && msgs[j].id == m.id;
            assert msgs[..k][j] == msgs[j];
          }
        }
      }
      var next := IdsOf(msgs[..k + 1]);
      assert next == if Present(m.id) then seen + {m.id.value} else seen by {
        assert forall j | 0 <= j < k :: msgs[..k + 1][j] == msgs[..k][j];
        assert msgs[..k + 1][k] == m;
      }
      if Present(m.id) && m.id.value in seen {
        assert seen + {m.id.value} == seen;
      }
    }
  }

  /** The merge keeps, in order, exactly the messages the positional rule
      keeps in the concatenated groups. */
  lemma MergeMessagesByPosition(groups: seq<seq<Message>>)
    ensures MergeMessages(groups) == KeptFrom(Flatten(groups), 0)
  {
    var msgs := Flatten(groups);
    DedupFromPosition(msgs, 0);
    assert msgs[0..] == msgs;
    assert IdsOf(msgs[..0]) == {};
  }

  /** Nothing without a usable id is dropped, and every usable id of the
      input is still reported. */
  lemma MergeMessagesComplete(groups: seq<seq<Message>>, i: nat)
    requires i < |Flatten(groups)|
    ensures var msgs := Flatten(groups);
      && (!Present(msgs[i].id) ==> View(msgs[i]) in MergeMessages(groups))
      && (Present(msgs[i].id) ==> exists v | v in MergeMessages(groups) :: v.id == msgs[i].id)
  {
    var msgs := Flatten(groups);
    MergeMessagesByPosition(groups);
    if Present(msgs[i].id) {
      FirstWithId(msgs, i);
      var f :| 0 <= f <= i && Kept(msgs, f) && msgs[f].id == msgs[i].id;
      KeptFromHas(msgs, 0, f);
      assert View(msgs[f]).id == msgs[i].id;
    } else {
      KeptFromHas(msgs, 0, i);
    }
  }

  /** Some message at or before `j` carries `msgs[j]`'s id and is kept. */
  lemma {:induction false} FirstWithId(msgs: seq<Message>, j: nat)
    requires j < |msgs| && Present(msgs[j].id)
    ensures exists f | 0 <= f <= j :: Kept(msgs, f) && msgs[f].id == msgs[j].id
    decreases j
  {
    if !Kept(msgs, j) {
      var e :| 0 <= e < j && msgs[e].id == msgs[j].id;
      FirstWithId(msgs, e);
    }
  }

  lemma {:induction false} KeptFromHas(msgs: seq<Message>, k: nat, f: nat)
    requires k <= f < |msgs| && Kept(msgs, f)
    ensures View(msgs[f]) in KeptFrom(msgs, k)
    decreases f - k
  {
    if k < f {
      KeptFromHas(msgs, k + 1, f);
    }
  }
}

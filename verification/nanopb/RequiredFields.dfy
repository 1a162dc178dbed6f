/**
  The closing check of a message, stated about the wire: decoding succeeds only if the
  required fields, up to the first sixty-four, all turned up among the bytes.
 */
module RequiredFields {
  import opened Wrappers
  import opened Bits
  import opened Wire
  import opened Descriptor
  import opened Decoding

  /** The tags of the fields the decoder meets. */
  function Met(fields: seq<Field>, st: State, bs: seq<byte>): set<nat>
    requires |st.members| == SlotCount(fields)
    decreases |bs|
  {
    match DecodeTag(bs)
    case Tag(wt, tag, rest) =>
      var r := DecodeOne(fields, st, wt, tag, rest);
      {tag} + if r.Fail? then {} else Met(fields, r.value, r.rest)
    case _ => {}
  }

  /** A required field, among those that are checked, that is noted under an index. */
  predicate NotedAt(fields: seq<Field>, i: nat, k: nat) {
    i < |fields| && fields[i].htype.Required? && RequiredIndex(fields, i) == k && k < PB_MAX_REQUIRED_FIELDS
  }

  ghost predicate MetAt(fields: seq<Field>, tags: set<nat>, k: nat) {
    exists i: nat :: NotedAt(fields, i, k) && fields[i].tag in tags
  }

  lemma IndexUnique(fields: seq<Field>, i: nat, j: nat)
    requires i < |fields| && j < |fields| && fields[i].htype.Required? && fields[j].htype.Required?
    requires RequiredIndex(fields, i) == RequiredIndex(fields, j)
    ensures i == j
  {
    if i < j {
      RequiredIndexGrows(fields, i, j);
    } else if j < i {
      RequiredIndexGrows(fields, j, i);
    }
  }

  /** One field notes its own index and no other. */
  lemma OneNotes(fields: seq<Field>, st: State, wt: WireType, tag: nat, bs: seq<byte>, k: nat)
    requires |st.members| == SlotCount(fields) && WellFormed(fields) && DecodeOne(fields, st, wt, tag, bs).Ok?
    ensures k in DecodeOne(fields, st, wt, tag, bs).value.seen <==> k in st.seen || MetAt(fields, {tag}, k)
  {
    hide DecodeField, FindTag, SkipField;
    var found := FindTag(fields, tag);
    if found.Some? {
      FieldKeepsSeen(fields, found.value, wt, NoteField(fields, found.value, st).value, bs);
    }
    forall i: nat | NotedAt(fields, i, k) && fields[i].tag == tag
      ensures found == Some(i)
    {
      FindTagUnique(fields, i);
    }
    if found.Some? && fields[found.value].htype.Required? && RequiredIndex(fields, found.value) == k {
      assert k < PB_MAX_REQUIRED_FIELDS ==> NotedAt(fields, found.value, k);
    }
  }

  lemma FieldKeepsSeen(fields: seq<Field>, i: nat, wt: WireType, st: State, bs: seq<byte>)
    requires i < |fields| && |st.members| == SlotCount(fields) && DecodeField(fields, i, wt, st, bs).Ok?
    ensures DecodeField(fields, i, wt, st, bs).value.seen == st.seen
  {
    hide DecodeRepeated, DecodeSingular, Items;
  }

  lemma {:induction false} RunNotes(fields: seq<Field>, st: State, bs: seq<byte>, k: nat)
    requires |st.members| == SlotCount(fields) && WellFormed(fields) && Run(fields, st, bs).Done?
    ensures k in Run(fields, st, bs).st.seen <==> k in st.seen || MetAt(fields, Met(fields, st, bs), k)
    decreases |bs|
  {
    hide DecodeOne, WellFormed, NotedAt;
    if bs != [] && DecodeTag(bs).Tag? {
      var t := DecodeTag(bs);
      var r := DecodeOne(fields, st, t.wt, t.tag, t.rest);
      OneNotes(fields, st, t.wt, t.tag, t.rest, k);
      RunNotes(fields, r.value, r.rest, k);
    }
  }

  /**
    A message whose fields all decode is accepted exactly when no fixed-count array was
    cut short and every required field, of the first sixty-four, turned up.
   */
  lemma AcceptedExactly(fields: seq<Field>, members: seq<Member>, bs: seq<byte>)
    requires |members| == SlotCount(fields) && WellFormed(fields) && Run(fields, Start(members), bs).Done?
    ensures DecodeMessage(fields, members, bs).Ok? <==>
            && !FixedArrayIncomplete(fields, Run(fields, Start(members), bs).st)
            && forall i :: 0 <= i < |fields| && fields[i].htype.Required?
                           && RequiredIndex(fields, i) < PB_MAX_REQUIRED_FIELDS ==>
                 fields[i].tag in Met(fields, Start(members), bs)
  {
    hide Run, Met, WellFormed, FixedArrayIncomplete;
    var st, met := Run(fields, Start(members), bs).st, Met(fields, Start(members), bs);
    forall i | 0 <= i < |fields| && fields[i].htype.Required? && RequiredIndex(fields, i) < PB_MAX_REQUIRED_FIELDS
      ensures RequiredIndex(fields, i) < RequiredIndex(fields, |fields|)
      ensures fields[i].tag in met <==> RequiredIndex(fields, i) in st.seen
    {
      RequiredIndexGrows(fields, i, |fields|);
      RunNotes(fields, Start(members), bs, RequiredIndex(fields, i));
      assert NotedAt(fields, i, RequiredIndex(fields, i));
      forall j: nat | NotedAt(fields, j, RequiredIndex(fields, i))
        ensures j == i
      {
        IndexUnique(fields, i, j);
      }
    }
    forall k | 0 <= k < RequiredIndex(fields, |fields|) && k < PB_MAX_REQUIRED_FIELDS && k !in st.seen
      ensures exists i :: 0 <= i < |fields| && fields[i].htype.Required?
                          && RequiredIndex(fields, i) < PB_MAX_REQUIRED_FIELDS && fields[i].tag !in met
    {
      var i := RequiredFieldAt(fields, |fields|, k);
      assert fields[i].tag !in met;
    }
  }
}

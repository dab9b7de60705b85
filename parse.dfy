/**
 * What `parse_file` computes, as functions of the name map and the
 * decoded document. The loops of `parse_file` in FleepCleaner.Cleaner are
 * proved to compute exactly these; the lemmas state what the parser promises.
 */
module Parse {
  import opened Wrappers
  import opened Export
  import Size
  import Seqs

  const UrlPrefix: string := "https://fleep.io"

  /** Python's KeyError, carrying the key that was looked up. */
  datatype KeyError = KeyError(key: string)

  // ---------------------------------------------------------------------
  // Contact indexing

  /** The name map after assigning `id_to_name[account_id] = _formatted_name`
      for each contact in order. */
  function IndexedNames(names: map<string, string>, contacts: seq<Contact>): map<string, string>
    decreases |contacts|
  {
    if contacts == [] then names
    else
      var last := contacts[|contacts| - 1];
      IndexedNames(names, contacts[..|contacts| - 1])[last.accountId := last.formattedName]
  }

  function ContactIds(contacts: seq<Contact>): set<string>
  {
    set c | c in contacts :: c.accountId
  }

  /** No contact after position j carries the account id of contact j. */
  predicate IsLastWithId(contacts: seq<Contact>, j: int)
    requires 0 <= j < |contacts|
  {
    forall k :: j < k < |contacts| ==> contacts[k].accountId != contacts[j].accountId
  }

  lemma ContactIdsSnoc(contacts: seq<Contact>)
    requires contacts != []
    ensures ContactIds(contacts) ==
      ContactIds(contacts[..|contacts| - 1]) + {contacts[|contacts| - 1].accountId}
  {
    var n := |contacts|;
    var front := contacts[..n - 1];
    forall c | c in contacts ensures c in front || c == contacts[n - 1] {
      var i :| 0 <= i < n && contacts[i] == c;
      if i < n - 1 { assert front[i] == c; }
    }
  }

  /** Indexing adds exactly the contacts' account ids to the map. */
  lemma {:induction false} IndexedNamesKeys(names: map<string, string>, contacts: seq<Contact>)
    ensures IndexedNames(names, contacts).Keys == names.Keys + ContactIds(contacts)
    decreases |contacts|
  {
    if contacts != [] {
      IndexedNamesKeys(names, contacts[..|contacts| - 1]);
      ContactIdsSnoc(contacts);
    }
  }

  /** An entry whose id no contact carries keeps its name. */
  lemma {:induction false} IndexedNamesUntouched(names: map<string, string>, contacts: seq<Contact>, id: string)
    requires id in names && id !in ContactIds(contacts)
    ensures id in IndexedNames(names, contacts) && IndexedNames(names, contacts)[id] == names[id]
    decreases |contacts|
  {
    if contacts != [] {
      ContactIdsSnoc(contacts);
      IndexedNamesUntouched(names, contacts[..|contacts| - 1], id);
    }
  }

  /** Last write wins: an id maps to the name of the last contact carrying it. */
  lemma {:induction false} IndexedNamesLastWins(names: map<string, string>, contacts: seq<Contact>, j: nat)
    requires j < |contacts| && IsLastWithId(contacts, j)
    ensures contacts[j].accountId in IndexedNames(names, contacts)
    ensures IndexedNames(names, contacts)[contacts[j].accountId] == contacts[j].formattedName
    decreases |contacts|
  {
    var n := |contacts|;
    if j < n - 1 {
      var front := contacts[..n - 1];
      assert contacts[n - 1].accountId != contacts[j].accountId;
      assert front[j] == contacts[j];
      assert IsLastWithId(front, j) by {
        forall k | j < k < n - 1 ensures front[k].accountId != front[j].accountId {
          assert front[k] == contacts[k];
        }
      }
      IndexedNamesLastWins(names, front, j);
    }
  }

  /** When no two contacts share an account id, indexing from an empty map
      yields each contact's own formatted name. */
  lemma UniqueIdsIndexExactly(contacts: seq<Contact>)
    requires forall i, j :: 0 <= i < j < |contacts| ==> contacts[i].accountId != contacts[j].accountId
    ensures IndexedNames(map[], contacts).Keys == ContactIds(contacts)
    ensures forall j :: 0 <= j < |contacts| ==>
              IndexedNames(map[], contacts)[contacts[j].accountId] == contacts[j].formattedName
  {
    IndexedNamesKeys(map[], contacts);
    forall j | 0 <= j < |contacts|
      ensures contacts[j].accountId in IndexedNames(map[], contacts)
      ensures IndexedNames(map[], contacts)[contacts[j].accountId] == contacts[j].formattedName
    {
      IndexedNamesLastWins(map[], contacts, j);
    }
  }

  // ---------------------------------------------------------------------
  // Attachments

  /** The dict literal of lines 45-49, or None when evaluating it raises. */
  function ToRecord(e: Element): (r: Option<Record>)
    ensures r.Some? <==>
      e.AttachmentEntry? && e.fileUrl.Present? && e.conversationId.Some? &&
      e.messageNr.Some? && e.attachmentId.Some? && e.fileSize.Present?
  {
    match e
    case NonObjectElement => None
    case AttachmentEntry(url, cid, nr, aid, size) =>
      if url.Present? && cid.Some? && nr.Some? && aid.Some? && size.Present? then
        Some(Record(UrlPrefix + url.value, cid.value, nr.value, aid.value, Size.SizeTenths(size.value)))
      else None
  }

  /** A built record's url is the site prefix followed by `file_url`; the
      three ids are copied; the size is the nearest tenth of a megabyte. */
  lemma ToRecordFields(e: Element)
    requires ToRecord(e).Some?
    ensures |ToRecord(e).value.url| >= |UrlPrefix|
    ensures ToRecord(e).value.url[..|UrlPrefix|] == UrlPrefix
    ensures ToRecord(e).value.url[|UrlPrefix|..] == e.fileUrl.value
    ensures ToRecord(e).value.conversationId == e.conversationId.value
    ensures ToRecord(e).value.messageNr == e.messageNr.value
    ensures ToRecord(e).value.attachmentId == e.attachmentId.value
    ensures ToRecord(e).value.sizeTenths == Size.SizeTenths(e.fileSize.value)
    ensures 2 * Size.Abs(e.fileSize.value * 10 - ToRecord(e).value.sizeTenths * Size.Mebibyte) <= Size.Mebibyte
  {
  }

  /** The records appended while iterating an owner-authored message's
      attachments, up to the element whose record cannot be built, where
      the exception ends the message. */
  function AttachmentRun(elems: seq<Element>): (r: seq<Record>)
    ensures |r| <= |elems|
  {
    if elems == [] then []
    else match ToRecord(elems[0])
      case None => []
      case Some(rec) => [rec] + AttachmentRun(elems[1..])
  }

  /** The run holds one record per element, in order, and stops exactly
      at the first element whose record cannot be built. */
  lemma {:induction false} AttachmentRunSpec(elems: seq<Element>)
    ensures |AttachmentRun(elems)| <= |elems|
    ensures forall j :: 0 <= j < |AttachmentRun(elems)| ==> ToRecord(elems[j]) == Some(AttachmentRun(elems)[j])
    ensures |AttachmentRun(elems)| < |elems| ==> ToRecord(elems[|AttachmentRun(elems)|]).None?
  {
    if elems != [] && ToRecord(elems[0]).Some? {
      AttachmentRunSpec(elems[1..]);
      var r := AttachmentRun(elems);
      assert r == [ToRecord(elems[0]).value] + AttachmentRun(elems[1..]);
      forall j | 0 <= j < |r| ensures ToRecord(elems[j]) == Some(r[j]) {
        if j > 0 { assert elems[j] == elems[1..][j - 1]; }
      }
    }
  }

  /** If building the k-th record fails, exactly the records of elements
      0..k-1 are kept; if none fails, every element gives one. */
  lemma AttachmentRunStopsAt(elems: seq<Element>, k: nat)
    requires k <= |elems|
    requires forall j :: 0 <= j < k ==> ToRecord(elems[j]).Some?
    requires k < |elems| ==> ToRecord(elems[k]).None?
    ensures |AttachmentRun(elems)| == k
    ensures forall j :: 0 <= j < k ==> AttachmentRun(elems)[j] == ToRecord(elems[j]).value
  {
    AttachmentRunSpec(elems);
  }

  // ---------------------------------------------------------------------
  // Messages, conversations, the document

  /** The display name of a message's author, None when the lookup at
      line 39 raises. */
  function AuthorName(names: map<string, string>, m: Message): Option<string>
  {
    if m.author.Some? && m.author.value in names then Some(names[m.author.value]) else None
  }

  /** The records one message contributes to `files`. Every exception
      inside the `try` of lines 36-52 ends the message silently. */
  function MessageRecords(names: map<string, string>, owner: string, m: Message): (r: seq<Record>)
    ensures |r| <= ElementCount(m)
  {
    match m.body
    case Undecodable => []
    case NonObject => []
    case Object(atts) =>
      if atts.None? then []
      else if AuthorName(names, m).None? then []
      else if atts.value.NonIterable? then []
      else if AuthorName(names, m).value != owner then []
      else AttachmentRun(atts.value.elems)
  }

  /** A message contributes records only if its author's display name is
      the owner's display name, and then they are its attachment run. */
  lemma OwnerOnly(names: map<string, string>, owner: string, m: Message)
    ensures MessageRecords(names, owner, m) != [] ==>
      AuthorName(names, m) == Some(owner) &&
      m.body.Object? && m.body.attachments.Some? && m.body.attachments.value.Elements? &&
      MessageRecords(names, owner, m) == AttachmentRun(m.body.attachments.value.elems)
    ensures AuthorName(names, m) != Some(owner) ==> MessageRecords(names, owner, m) == []
    ensures (AuthorName(names, m) == Some(owner) &&
             m.body.Object? && m.body.attachments.Some? && m.body.attachments.value.Elements?) ==>
      MessageRecords(names, owner, m) == AttachmentRun(m.body.attachments.value.elems)
  {
  }

  /** The number of elements a message holds under `attachments`. */
  function ElementCount(m: Message): nat
  {
    if m.body.Object? && m.body.attachments.Some? && m.body.attachments.value.Elements?
    then |m.body.attachments.value.elems| else 0
  }

  /** The records of items walked one after the other, `f` giving each
      item's records. */
  function Flatten<T>(f: T -> seq<Record>, xs: seq<T>): seq<Record>
    decreases |xs|
  {
    if xs == [] then [] else Flatten(f, xs[..|xs| - 1]) + f(xs[|xs| - 1])
  }

  /** Flattening a concatenation gives the two flattenings concatenated. */
  lemma {:induction false} FlattenAppend<T>(f: T -> seq<Record>, a: seq<T>, b: seq<T>)
    ensures Flatten(f, a + b) == Flatten(f, a) + Flatten(f, b)
    decreases |b|
  {
    if b == [] {
      assert a + b == a;
    } else {
      var init := b[..|b| - 1];
      FlattenAppend(f, a, init);
      assert (a + b)[..|a + b| - 1] == a + init;
      assert (a + b)[|a + b| - 1] == b[|b| - 1];
      var x, y, z := Flatten(f, a), Flatten(f, init), f(b[|b| - 1]);
      assert x + y + z == x + (y + z);
    }
  }

  /** The message step of a conversation's walk, for the owner's name. */
  function MessageParser(names: map<string, string>, owner: string): Message -> seq<Record>
  {
    m => MessageRecords(names, owner, m)
  }

  /** The records of a conversation's messages, in message order. */
  function MessagesRecords(names: map<string, string>, owner: string, msgs: seq<Message>): seq<Record>
  {
    Flatten(MessageParser(names, owner), msgs)
  }

  /** Output order within a conversation is message order: the records of
      two runs of messages are those of the first run followed by those of
      the second. */
  lemma MessagesRecordsAppend(names: map<string, string>, owner: string, a: seq<Message>, b: seq<Message>)
    ensures MessagesRecords(names, owner, a + b) ==
      MessagesRecords(names, owner, a) + MessagesRecords(names, owner, b)
  {
    FlattenAppend(MessageParser(names, owner), a, b);
  }

  /** A conversation's records, or the KeyError of line 33 when its
      `profile_id` has no name. */
  function ConversationRecords(names: map<string, string>, conv: Conversation): Result<seq<Record>, KeyError>
  {
    if conv.profileId !in names then Failure(KeyError(conv.profileId))
    else Success(MessagesRecords(names, names[conv.profileId], conv.messages))
  }

  /** Parsing items one after the other, each by `f` to its records or
      its fatal error; the first error ends the walk. */
  function Gather<T>(f: T -> Result<seq<Record>, KeyError>, xs: seq<T>): Result<seq<Record>, KeyError>
    decreases |xs|
  {
    if xs == [] then Success([])
    else
      match Gather(f, xs[..|xs| - 1])
      case Failure(e) => Failure(e)
      case Success(front) =>
        match f(xs[|xs| - 1])
        case Failure(e) => Failure(e)
        case Success(recs) => Success(front + recs)
  }

  /** Walking two lists one after the other, when neither fails, gives
      the first list's records followed by the second's. */
  lemma {:induction false} GatherAppend<T>(f: T -> Result<seq<Record>, KeyError>, a: seq<T>, b: seq<T>)
    requires Gather(f, a).Success? && Gather(f, b).Success?
    ensures Gather(f, a + b) == Success(Gather(f, a).value + Gather(f, b).value)
    decreases |b|
  {
    if b == [] {
      assert a + b == a;
      assert Gather(f, a).value + [] == Gather(f, a).value;
    } else {
      var init := b[..|b| - 1];
      GatherAppend(f, a, init);
      assert (a + b)[..|a + b| - 1] == a + init;
      assert (a + b)[|a + b| - 1] == b[|b| - 1];
      var x, y, z := Gather(f, a).value, Gather(f, init).value, f(b[|b| - 1]).value;
      assert x + y + z == x + (y + z);
    }
  }

  /** The conversation step of the walk: line 33's owner lookup, then the
      conversation's messages. */
  function ConversationParser(names: map<string, string>): Conversation -> Result<seq<Record>, KeyError>
  {
    conv => ConversationRecords(names, conv)
  }

  /** The list `parse_file` returns after indexing, or the first fatal
      KeyError, in traversal order. */
  function DocumentRecords(names: map<string, string>, convs: seq<Conversation>): Result<seq<Record>, KeyError>
  {
    Gather(ConversationParser(names), convs)
  }

  /** Once a conversation's owner lookup fails, the parse fails with that
      key, whatever follows. */
  lemma {:induction false} DocumentRecordsStop(names: map<string, string>, convs: seq<Conversation>, i: nat)
    requires i < |convs|
    requires DocumentRecords(names, convs[..i]).Success?
    requires convs[i].profileId !in names
    ensures DocumentRecords(names, convs) == Failure(KeyError(convs[i].profileId))
    decreases |convs|
  {
    var n := |convs|;
    if n == i + 1 {
      assert convs[..n - 1] == convs[..i];
    } else {
      assert convs[..n - 1][..i] == convs[..i];
      DocumentRecordsStop(names, convs[..n - 1], i);
    }
  }

  /** The parse fails exactly when some conversation's `profile_id` has
      no name, and then with the first such id; a failure inside a
      message never makes it fail. */
  lemma {:induction false} DocumentRecordsFails(names: map<string, string>, convs: seq<Conversation>)
    ensures DocumentRecords(names, convs).Failure? <==>
      exists j :: 0 <= j < |convs| && convs[j].profileId !in names
    ensures DocumentRecords(names, convs).Failure? ==>
      exists j :: 0 <= j < |convs| && convs[j].profileId !in names &&
        DocumentRecords(names, convs).error == KeyError(convs[j].profileId) &&
        forall k :: 0 <= k < j ==> convs[k].profileId in names
    decreases |convs|
  {
    if convs != [] {
      var n := |convs|;
      var front := convs[..n - 1];
      DocumentRecordsFails(names, front);
      forall j | 0 <= j < n - 1 ensures front[j] == convs[j] { }
      if DocumentRecords(names, front).Failure? {
        var j :| 0 <= j < |front| && front[j].profileId !in names &&
          DocumentRecords(names, front).error == KeyError(front[j].profileId) &&
          forall k :: 0 <= k < j ==> front[k].profileId in names;
        assert convs[j] == front[j];
      } else if convs[n - 1].profileId !in names {
        assert forall k :: 0 <= k < n - 1 ==> convs[k].profileId in names by {
          forall k | 0 <= k < n - 1 ensures convs[k].profileId in names {
            assert front[k] == convs[k];
          }
        }
      } else {
        forall j | 0 <= j < n ensures convs[j].profileId in names {
          if j < n - 1 { assert front[j] == convs[j]; }
        }
      }
    }
  }

  /** One step of the conversation loop: a conversation whose owner is
      known appends its records after all earlier ones. */
  lemma DocumentRecordsSnoc(names: map<string, string>, convs: seq<Conversation>, conv: Conversation)
    requires DocumentRecords(names, convs).Success? && conv.profileId in names
    ensures DocumentRecords(names, convs + [conv]) ==
      Success(DocumentRecords(names, convs).value + ConversationRecords(names, conv).value)
  {
    Seqs.SnocInit(convs, conv);
  }

  /** The records of two lists of conversations, parsed one after the
      other, are those of the first list followed by those of the second. */
  lemma DocumentRecordsAppend(names: map<string, string>, a: seq<Conversation>, b: seq<Conversation>)
    requires DocumentRecords(names, a).Success? && DocumentRecords(names, b).Success?
    ensures DocumentRecords(names, a + b) ==
      Success(DocumentRecords(names, a).value + DocumentRecords(names, b).value)
  {
    GatherAppend(ConversationParser(names), a, b);
  }

  function MessagesElementCount(msgs: seq<Message>): nat
    decreases |msgs|
  {
    if msgs == [] then 0 else MessagesElementCount(msgs[..|msgs| - 1]) + ElementCount(msgs[|msgs| - 1])
  }

  /** The number of attachment elements in all conversations. */
  function DocumentElementCount(convs: seq<Conversation>): nat
    decreases |convs|
  {
    if convs == [] then 0
    else DocumentElementCount(convs[..|convs| - 1]) + MessagesElementCount(convs[|convs| - 1].messages)
  }

  lemma {:induction false} MessagesRecordsBound(names: map<string, string>, owner: string, msgs: seq<Message>)
    ensures |MessagesRecords(names, owner, msgs)| <= MessagesElementCount(msgs)
    decreases |msgs|
  {
    if msgs != [] {
      var last := msgs[|msgs| - 1];
      MessagesRecordsBound(names, owner, msgs[..|msgs| - 1]);
      if ElementCount(last) > 0 {
        AttachmentRunSpec(last.body.attachments.value.elems);
      }
    }
  }

  /** The parser never emits more records than the input has attachments. */
  lemma {:induction false} RecordCountBound(names: map<string, string>, convs: seq<Conversation>)
    requires DocumentRecords(names, convs).Success?
    ensures |DocumentRecords(names, convs).value| <= DocumentElementCount(convs)
    decreases |convs|
  {
    if convs != [] {
      var n := |convs|;
      RecordCountBound(names, convs[..n - 1]);
      MessagesRecordsBound(names, names[convs[n - 1].profileId], convs[n - 1].messages);
    }
  }

  /** A conversation none of whose messages is authored under the owner's
      display name yields no records, even when authors are unknown. */
  lemma {:induction false} ForeignMessagesContributeNothing(names: map<string, string>, owner: string, msgs: seq<Message>)
    requires forall k :: 0 <= k < |msgs| ==> AuthorName(names, msgs[k]) != Some(owner)
    ensures MessagesRecords(names, owner, msgs) == []
    decreases |msgs|
  {
    if msgs != [] {
      var n := |msgs|;
      ForeignMessagesContributeNothing(names, owner, msgs[..n - 1]);
      OwnerOnly(names, owner, msgs[n - 1]);
    }
  }

  /** The typical export: one contact who owns a conversation holding a
      2 MiB attachment they sent, a message from an account that is not a
      contact, and a message whose body is not valid JSON. Only the owner's
      attachment is kept, with its url prefixed and its size 2.0 MB. */
  lemma TypicalExport()
    ensures
      var names := IndexedNames(map[], [Contact("u1", "Owner")]);
      var att := AttachmentEntry(Present("/f"), Some("c"), Some(1), Some("a"), Present(2097152));
      var mine := Message(Some("u1"), Object(Some(Elements([att]))));
      var stranger := Message(Some("u2"), Object(Some(Elements([att]))));
      var garbled := Message(Some("u1"), Undecodable);
      DocumentRecords(names, [Conversation("u1", [mine, stranger, garbled])]) ==
        Success([Record("https://fleep.io/f", "c", 1, "a", 20)])
  {
    var contacts := [Contact("u1", "Owner")];
    assert contacts[..0] == [];
    var names := IndexedNames(map[], contacts);
    assert IndexedNames(map[], contacts[..0]) == map[];
    assert names.Keys == {"u1"} && names["u1"] == "Owner";
    var att := AttachmentEntry(Present("/f"), Some("c"), Some(1), Some("a"), Present(2097152));
    var mine := Message(Some("u1"), Object(Some(Elements([att]))));
    var stranger := Message(Some("u2"), Object(Some(Elements([att]))));
    var garbled := Message(Some("u1"), Undecodable);
    var rec := Record("https://fleep.io/f", "c", 1, "a", 20);
    Size.SizeExamples();
    assert UrlPrefix + "/f" == "https://fleep.io/f";
    assert ToRecord(att) == Some(rec);
    assert [att][1..] == [];
    assert AttachmentRun([att]) == [rec];
    assert MessageRecords(names, "Owner", mine) == [rec];
    assert MessageRecords(names, "Owner", stranger) == [];
    assert MessageRecords(names, "Owner", garbled) == [];
    var msgs := [mine, stranger, garbled];
    var step := MessageParser(names, "Owner");
    assert step(mine) == [rec] && step(stranger) == [] && step(garbled) == [];
    assert msgs[..2][..1] == [mine] && msgs[..2] == [mine, stranger];
    assert [mine][..0] == [];
    assert Flatten(step, [mine]) == [rec];
    assert Flatten(step, [mine, stranger]) == [rec];
    assert MessagesRecords(names, "Owner", msgs) == [rec];
    var convs := [Conversation("u1", msgs)];
    assert convs[..0] == [];
    assert ConversationRecords(names, convs[0]) == Success([rec]);
  }
}

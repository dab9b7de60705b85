/**
 * The script's mutable state and the operations that use it. The
 * module-level dict `id_to_name` persists across calls and is extended in
 * place by `parse_file`; here it is the field `idToName` of a Cleaner.
 */
module FleepCleaner {
  import opened Wrappers
  import opened Export
  import opened Parse
  import Seqs

  class Cleaner {
    var idToName: map<string, string>

    /** `id_to_name = dict()` at import time. */
    constructor ()
      ensures idToName == map[]
    {
      idToName := map[];
    }

    /** `ids_to_names`: the display name of every id, in order, or the
        KeyError of the first id that has none. */
    method IdsToNames(ids: seq<string>) returns (r: Result<seq<string>, KeyError>)
      ensures r.Success? <==> forall k :: 0 <= k < |ids| ==> ids[k] in idToName
      ensures r.Success? ==>
        |r.value| == |ids| && forall k :: 0 <= k < |ids| ==> r.value[k] == idToName[ids[k]]
      ensures r.Failure? ==>
        exists k :: 0 <= k < |ids| && ids[k] !in idToName && r.error == KeyError(ids[k]) &&
          forall j :: 0 <= j < k ==> ids[j] in idToName
    {
      var output: seq<string> := [];
      var i := 0;
      while i < |ids|
        invariant 0 <= i <= |ids|
        invariant |output| == i
        invariant forall k :: 0 <= k < i ==> ids[k] in idToName && output[k] == idToName[ids[k]]
      {
        if ids[i] !in idToName {
          return Failure(KeyError(ids[i]));
        }
        output := output + [idToName[ids[i]]];
        i := i + 1;
      }
      return Success(output);
    }

    /** The loop over `data['contacts']`: one assignment per contact, in
        order, so a later contact with the same id overwrites an earlier one. */
    method IndexContacts(contacts: seq<Contact>)
      modifies this
      ensures idToName == IndexedNames(old(idToName), contacts)
    {
      var i := 0;
      while i < |contacts|
        invariant 0 <= i <= |contacts|
        invariant idToName == IndexedNames(old(idToName), contacts[..i])
      {
        Seqs.TakeSnoc(contacts, i);
        idToName := idToName[contacts[i].accountId := contacts[i].formattedName];
        i := i + 1;
      }
      Seqs.TakeAll(contacts);
    }

    /** One pass of the `try` block of lines 36-52 for a message of a
        conversation whose owner is named `owner`: the records it appends
        to `files`. Every exception leaves the message with what was
        appended before it. */
    method ParseMessage(files: seq<Record>, owner: string, m: Message) returns (out: seq<Record>)
      ensures out == files + MessageRecords(idToName, owner, m)
    {
      out := files;
      if !m.body.Object? {
        return;  // json.loads raised, or the value has no `keys`
      }
      var atts := m.body.attachments;
      if atts.None? {
        return;  // no `attachments` key
      }
      if m.author.None? || m.author.value !in idToName {
        return;  // KeyError on `big_message['account_id']` or on `id_to_name`
      }
      var author := idToName[m.author.value];
      if atts.value.NonIterable? {
        return;  // `for` over a value that cannot be iterated
      }
      var elems := atts.value.elems;
      var j := 0;
      var raised := false;
      while j < |elems| && !raised
        invariant 0 <= j <= |elems|
        invariant author != owner ==> out == files && !raised
        invariant author == owner ==>
          |out| == |files| + j && out[..|files|] == files &&
          forall k :: 0 <= k < j ==> ToRecord(elems[k]) == Some(out[|files| + k])
        invariant raised ==> j < |elems| && ToRecord(elems[j]).None?
        decreases |elems| - j, if raised then 0 else 1
      {
        if author != owner {
          j := j + 1;
          continue;
        }
        var rec := ToRecord(elems[j]);
        if rec.None? {
          raised := true;  // a missing or ill-typed field raises here
        } else {
          out := out + [rec.value];
          j := j + 1;
        }
      }
      if author == owner {
        AttachmentRunStopsAt(elems, j);
        var run := AttachmentRun(elems);
        assert out == files + run by {
          forall k | 0 <= k < |out| ensures out[k] == (files + run)[k] {
            if k >= |files| {
              assert ToRecord(elems[k - |files|]) == Some(out[k]);
            } else {
              assert out[k] == out[..|files|][k];
            }
          }
        }
      }
    }

    /** The loop over `conversation['messages']`. */
    method ParseMessages(files: seq<Record>, owner: string, msgs: seq<Message>) returns (out: seq<Record>)
      ensures out == files + MessagesRecords(idToName, owner, msgs)
    {
      out := files;
      var i := 0;
      while i < |msgs|
        invariant 0 <= i <= |msgs|
        invariant out == files + MessagesRecords(idToName, owner, msgs[..i])
      {
        Seqs.TakeSnoc(msgs, i);
        ghost var before := MessagesRecords(idToName, owner, msgs[..i]);
        out := ParseMessage(out, owner, msgs[i]);
        assert MessagesRecords(idToName, owner, msgs[..i + 1]) ==
          before + MessageRecords(idToName, owner, msgs[i]);
        assert files + before + MessageRecords(idToName, owner, msgs[i]) ==
          files + (before + MessageRecords(idToName, owner, msgs[i]));
        i := i + 1;
      }
      Seqs.TakeAll(msgs);
    }

    /** `parse_file` from line 28 on: index the contacts into the global
        map, then walk every conversation. A `profile_id` with no name is
        fatal; the map keeps the contacts indexed before the failure. */
    method ParseFile(doc: Document) returns (r: Result<seq<Record>, KeyError>)
      modifies this
      ensures idToName == IndexedNames(old(idToName), doc.contacts)
      ensures r == DocumentRecords(idToName, doc.conversations)
    {
      var files: seq<Record> := [];
      IndexContacts(doc.contacts);
      var convs := doc.conversations;
      var i := 0;
      while i < |convs|
        invariant 0 <= i <= |convs|
        invariant idToName == IndexedNames(old(idToName), doc.contacts)
        invariant DocumentRecords(idToName, convs[..i]) == Success(files)
      {
        var conv := convs[i];
        if conv.profileId !in idToName {
          DocumentRecordsStop(idToName, convs, i);
          return Failure(KeyError(conv.profileId));  // line 33 is outside the `try`
        }
        var owner := idToName[conv.profileId];
        files := ParseMessages(files, owner, conv.messages);
        Seqs.TakeSnoc(convs, i);
        DocumentRecordsSnoc(idToName, convs[..i], conv);
        i := i + 1;
      }
      Seqs.TakeAll(convs);
      return Success(files);
    }
  }
}

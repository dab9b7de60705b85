/**
 * The already-decoded Fleep export document that `parse_file` walks.
 * Only the keys the parser reads are represented. A message body is the
 * outcome of `json.loads` on the message text, kept abstract: what
 * matters is whether decoding fails, whether the value is an object, and
 * what it holds under `attachments`.
 */
module Export {
  import opened Wrappers

  /** One element of `contacts`: `account_id` and `_formatted_name`. */
  datatype Contact = Contact(accountId: string, formattedName: string)

  /** A field whose use can fail either because the key is absent or
      because the value has the wrong type for what is done with it. */
  datatype Field<+T> = Missing | IllTyped | Present(value: T)

  /** One value produced by iterating over `message['attachments']`.
      Iterating a string or an object yields strings, which also fall
      under NonObjectElement: subscripting them by a key raises. */
  datatype Element =
    | NonObjectElement
    | AttachmentEntry(
        fileUrl: Field<string>,         // must be a string: it is concatenated
        conversationId: Option<string>, // copied unchanged
        messageNr: Option<int>,         // copied unchanged
        attachmentId: Option<string>,   // copied unchanged
        fileSize: Field<int>)           // an integer here: it is divided

  /** The value stored under `attachments`. */
  datatype AttachmentsValue =
    | NonIterable                 // null, a number, a boolean: `for` raises
    | Elements(elems: seq<Element>)

  /** The result of `json.loads(big_message['message'])`. A missing or
      non-string `message` key raises inside the same `try`, so it is
      folded into Undecodable. */
  datatype Body =
    | Undecodable
    | NonObject                   // a list, string or number: `.keys()` raises
    | Object(attachments: Option<AttachmentsValue>)

  /** One element of `conversation['messages']`. `author` is
      `big_message['account_id']`, None when the key is absent. */
  datatype Message = Message(author: Option<string>, body: Body)

  datatype Conversation = Conversation(profileId: string, messages: seq<Message>)

  datatype Document = Document(contacts: seq<Contact>, conversations: seq<Conversation>)

  /** A deletable file as `parse_file` emits it; `sizeTenths` is the
      rounded size in tenths of a megabyte (`size` times ten). */
  datatype Record = Record(
    url: string,
    conversationId: string,
    messageNr: int,
    attachmentId: string,
    sizeTenths: int)
}

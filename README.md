# FleepCleaner attachment selection, modelled in Dafny

FleepCleaner deletes large file attachments from a Fleep chat account.
Its only logic besides HTTP calls is in `fleep_cleaner.py`:

- `parse_file` turns an exported history into a flat list of attachment records.
  It fills the module-level map `id_to_name` (account id to display name) from the
  contacts. Then it walks conversations, messages and attachments in order. It keeps
  only attachments whose author has the same display name as the conversation's owner.
  Each kept record gets the `https://fleep.io` prefix on its url and a size in MB
  rounded to one decimal.
- `main` selects the records whose size reaches the command-line threshold. It counts
  them and sums their sizes, and it stops early when nothing is selected.
- `ids_to_names` is a small helper that maps a list of ids through `id_to_name`.

The model keeps the code's imperative shape, in these modules:

- `FleepCleaner.Cleaner` is a class whose field `idToName` is the global dict. Its
  methods loop the way the Python does. `IndexContacts`, `ParseMessage`,
  `ParseMessages` and `ParseFile` are each proved to compute a function of the `Parse`
  module; `IdsToNames` is specified directly by what it returns for each id, and the
  constructor by the empty map it starts with.
- `Parse` gives those functions and the lemmas that state what the parser promises.
  A conversation's messages and the document's conversations are walked by two
  generic walks, `Flatten` and `Gather`. Their concatenation lemmas carry the proofs
  that output order is traversal order.
- `Export` holds the decoded document as datatypes. A message body is the abstract
  result of `json.loads`: undecodable, not an object, or an object that may hold
  `attachments`. Fields that the code subscripts or combines are `Option`s or
  `Field`s, so a missing key or a value of the wrong type can be represented at
  each place where the `try` block can raise. `file_size` is an integer in the
  model; float sizes and the `OverflowError` of an enormous size are listed under
  "Left out".
- `Size` models `round(file_size/1024/1024, 1)` in tenths of a megabyte, for an
  integer `file_size` of magnitude below 2^53. For such a size the quotient is an exact binary
  fraction, and Python rounds its exact value to one decimal with ties to even. So
  the size in tenths is the integer nearest to `file_size * 10 / 2^20`, and an exact
  tie goes to the even neighbour. The model applies the same rule to every integer.
- `Select` models the selection loop of `main`. `size >= threshold` on the float
  equals `sizeTenths >= 10 * threshold` on integers, because the threshold is an `int`.
- `Seqs` holds generic slicing facts used by the proofs.

The exception structure follows the code:

- The owner lookup at line 33 is outside the `try`. A conversation whose `profile_id`
  has no name makes the whole parse fail with that key (`Failure(KeyError(id))`).
  `id_to_name` keeps the contacts already indexed.
- Any failure on lines 37-49 ends only the current message, with no error. Records
  appended for earlier attachments of that message stay in the output.

An unknown message author does not make the parse fail: the lookup at line 39 is
inside the catch-all `try`, so the message is skipped silently (`Parse.MessageRecords`,
`FleepCleaner.Cleaner.ParseMessage`).

## Model

| member | source | states |
|---|---|---|
| FleepCleaner.Cleaner.constructor | fleep_cleaner.py:6 | the name map starts empty |
| FleepCleaner.Cleaner.IdsToNames | fleep_cleaner.py:9-15 | succeeds iff every id has a name; the output has one entry per id, in order, each the id's name; on failure the error is the KeyError of the first id without a name |
| FleepCleaner.Cleaner.IndexContacts | fleep_cleaner.py:29-30 | the new map is the old map updated by every contact, in order |
| Parse.IndexedNamesKeys | fleep_cleaner.py:29-30 | indexing adds exactly the contacts' account ids to the keys of the map |
| Parse.IndexedNamesUntouched | fleep_cleaner.py:29-30 | an entry whose id no contact carries keeps its old name |
| Parse.IndexedNamesLastWins | fleep_cleaner.py:29-30 | an id maps to the formatted name of the last contact that carries it (last write wins) |
| Parse.UniqueIdsIndexExactly | fleep_cleaner.py:29-30 | with distinct ids, indexing from an empty map has exactly the contacts' ids as keys, each mapped to its own name |
| Parse.IndexedNames | fleep_cleaner.py:29-30 | definition: the map is updated by each contact in turn, `account_id` to `_formatted_name` (`Parse.IndexedNamesKeys`, `Parse.IndexedNamesUntouched` and `Parse.IndexedNamesLastWins` state its properties) |
| Parse.ToRecord | fleep_cleaner.py:45-49 | a record is built exactly when the element is an object with a string `file_url`, an integer `file_size` and the three id fields present |
| Parse.ToRecordFields | fleep_cleaner.py:45-49 | a built record's url is `https://fleep.io` followed by `file_url`; `conversation_id`, `message_nr` and `attachment_id` are copied unchanged; its size is exactly `Size.SizeTenths` of `file_size`, the nearest tenth of a megabyte with ties to even, so within half a tenth of a megabyte of `file_size / 2^20` |
| Parse.AttachmentRun | fleep_cleaner.py:40-49 | an owner-authored message's attachments yield at most one record each |
| Parse.AttachmentRunSpec | fleep_cleaner.py:40-52 | the records of an owner-authored message are, in order, those of its leading attachments, up to the first one whose record cannot be built; there are never more records than attachments |
| Parse.AttachmentRunStopsAt | fleep_cleaner.py:40-52 | if attachments 0..k-1 give records and attachment k raises, the attachment run is exactly the records of attachments 0..k-1, which by `Parse.OwnerOnly` is what an owner-authored message yields |
| Parse.AuthorName | fleep_cleaner.py:39 | definition: the author's display name, or none when `account_id` is absent or has no name, where `id_to_name[...]` raises inside the `try` |
| Parse.MessageRecords | fleep_cleaner.py:36-52 | one message yields at most as many records as it holds elements under `attachments`, and none when its body is not an object with an iterable `attachments` |
| Parse.OwnerOnly | fleep_cleaner.py:37-43 | a message yields records only if its body is an object with an `attachments` list and its author's display name equals the owner's display name, and otherwise none; conversely, such an owner-authored message yields exactly the attachment run of that list |
| Parse.ForeignMessagesContributeNothing | fleep_cleaner.py:35-43 | a conversation in which no message's author name equals the owner's name (unknown authors included) yields no records |
| Parse.MessagesRecords | fleep_cleaner.py:35-52 | definition: a conversation's records are those of its messages, walked in order (`Parse.MessagesRecordsAppend` states its properties) |
| Parse.MessagesRecordsAppend | fleep_cleaner.py:35-52 | output order within a conversation is message order: the records of two runs of messages, one after the other, are the first run's records followed by the second's |
| Parse.ConversationRecords | fleep_cleaner.py:33-52 | definition: the KeyError of line 33 when `profile_id` has no name, otherwise the records of the conversation's messages under the owner's display name |
| Parse.DocumentRecords | fleep_cleaner.py:32-52 | definition: the conversations are walked in order, each giving its records or the fatal KeyError of line 33, and the first KeyError ends the walk (`Parse.DocumentRecordsAppend`, `Parse.DocumentRecordsStop` and `Parse.DocumentRecordsFails` state its properties) |
| Parse.DocumentRecordsAppend | fleep_cleaner.py:32-52 | output order is traversal order: when two lists of conversations both parse, parsing one after the other gives the first list's records followed by the second's |
| Parse.DocumentRecordsStop | fleep_cleaner.py:32-33 | once every earlier conversation parses, a conversation with an unknown `profile_id` makes the parse fail with that key, whatever comes after it |
| Parse.DocumentRecordsFails | fleep_cleaner.py:32-52 | the parse fails iff some `profile_id` has no name, and then with the first such key; failures inside messages never make it fail |
| Parse.MessagesRecordsBound | fleep_cleaner.py:35-49 | the messages of a conversation yield no more records than they hold attachment elements |
| Parse.RecordCountBound | fleep_cleaner.py:32-49 | the parse never emits more records than the document holds attachment elements |
| Parse.TypicalExport | fleep_cleaner.py:28-52 | an export with one contact owning a conversation where the owner sent a 2097152-byte attachment, a non-contact sent one, and one message is not valid JSON parses to the single record `https://fleep.io/f` of 2.0 MB |
| Select.TypicalSelection | fleep_cleaner.py:99-106 | with a threshold of 1 MB, the 2.0 MB record of the typical export is selected |
| FleepCleaner.Cleaner.ParseMessage | fleep_cleaner.py:36-52 | the records appended for one message are exactly `MessageRecords` of it; every exception path leaves the message with what it already appended |
| FleepCleaner.Cleaner.ParseMessages | fleep_cleaner.py:35-52 | walking a conversation's messages appends their records in message order |
| FleepCleaner.Cleaner.ParseFile | fleep_cleaner.py:28-55 | the map afterwards is the old map indexed by the contacts, even when the parse fails; the result is the records of all conversations in traversal order, or the fatal KeyError |
| Size.RoundHalfEven | fleep_cleaner.py:49 | the result is an integer nearest to num/den, and the even one on an exact tie |
| Size.RoundHalfEvenUnique | fleep_cleaner.py:49 | those two properties determine the rounded value uniquely |
| Size.SizeTenths | fleep_cleaner.py:49 | the size in tenths is nearest to `file_size*10/2^20`, even on a tie |
| Size.SizeExamples | fleep_cleaner.py:49 | 1048576 bytes give 1.0 MB, 1572864 give 1.5, 262144 (a tie at 0.25) give 0.2, 786432 (a tie at 0.75) give 0.8, 1610612 give 1.5, 2097152 give 2.0 |
| Size.SizeTenthsMonotone | fleep_cleaner.py:49 | a larger file never gets a smaller rounded size |
| Select.Meets | fleep_cleaner.py:103 | definition: a record reaches the threshold when its size in tenths is at least ten times the threshold |
| Select.MeetsIsSizeComparison | fleep_cleaner.py:103 | that integer comparison is `size >= threshold` on the size in megabytes, `sizeTenths / 10` |
| Select.TotalTenths | fleep_cleaner.py:105 | definition: the sum of the records' sizes, in tenths of a megabyte |
| Select.Selection | fleep_cleaner.py:102-106 | definition: the records that reach the threshold, in input order (`Select.SelectionSpec` and `Select.SelectionCount` state its properties) |
| Select.SelectionSpec | fleep_cleaner.py:102-106 | every selected record reaches the threshold, the selection is a sub-multiset of the input (nothing invented or duplicated), and every input record that reaches the threshold is selected |
| Select.SelectionCount | fleep_cleaner.py:102-106 | each record occurs in the selection exactly as often as in the input when it reaches the threshold, and never otherwise |
| Select.SelectionEmpty | fleep_cleaner.py:108-110 | nothing is selected exactly when no record reaches the threshold |
| Select.ThresholdMonotone | fleep_cleaner.py:103 | under a higher threshold the selection is the lower threshold's selection filtered again, so it is never larger |
| Select.FindFilesToDelete | fleep_cleaner.py:99-110 | `files_selected` is the order-preserving selection; `i` is its length; `size` is the sum of its sizes in tenths; `i == 0` exactly when no record reaches the threshold, which is when `main` returns before the prompt |

## Left out

- Opening the export file and `json.load` (lines 25-26) are not modelled. The model starts from the decoded document.
- JSON text decoding of message bodies is not modelled. `json.loads` becomes the abstract `Body` value.
- The outer document is assumed well-formed: `contacts`, `conversations`, a contact's `account_id` and `_formatted_name`, `profile_id` and `messages` are always present. In the code, a missing key there raises outside the `try` and is fatal.
- `conversation_id` and `attachment_id` are fixed as strings and `message_nr` as an integer. The code copies any JSON value unchanged.
- An unhashable `account_id` (a list or an object) raises `TypeError` inside the `try`. The model folds that case into a missing author.
- `auth` and `delete_file` (lines 58-79) are not modelled. They are HTTP requests with status-code assertions.
- The deletion loop (lines 126-128) is not modelled. It calls `delete_file` once per record of `files_selected`, in order, and each call is a remote request.
- The `input()` confirmation loop (lines 114-122), every `print`, and `argparse` (lines 132-139) are not modelled. They are console I/O.
- Select.FindFilesToDelete: `size` is the exact sum in tenths of a megabyte. The code adds floats, and its summaries print `int(size)` (lines 113, 129). Neither the float rounding error nor that truncation is modelled.
- Size.SizeTenths: the model rounds the exact quotient for every integer. In the code, `file_size/1024` is an integer true division, which gives the correctly rounded float quotient; it is exact, and the code agrees with the model, whenever `file_size` is of magnitude below 2^53. For larger magnitudes the float quotient may be inexact, which is not modelled.
- Size.SizeTenths: a `file_size` so large that `file_size/1024` exceeds the float range (about 2^1034 bytes) raises `OverflowError` at line 49, inside the `try`, so the code abandons the message there. The model still builds a record for it.
- Parse.ToRecord: float or boolean `file_size` values are not modelled. In the code line 49 accepts them arithmetically and appends a record; the model treats every non-integer `file_size` as ill-typed, so `ToRecord` gives no record and the message ends there.
- Filtering by file-name extension and downloading the export from the server are not modelled. They are not part of `fleep_cleaner.py`.

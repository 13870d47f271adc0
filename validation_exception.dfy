/**
 * The validation exception the API throws for failed input: its message is
 * every field's messages joined by ", ", the fields joined by " ", and the
 * error bag itself travels along with the exception.
 *
 * A message bag is the sequence of its fields in insertion order, each with
 * its messages. The previous exception and the headers are handed to the
 * parent unchanged and are not part of this model.
 */
module ValidationMessage {
  import opened Common

  type ErrorBag = seq<(string, seq<string>)>

  /** The `$errors` argument: absent (null), a message bag (an object, so
    * always truthy, even when empty), or a plain array. */
  datatype ErrorArg = NullErrors | MessageBag(bag: ErrorBag) | PlainArray(entries: ErrorBag)

  /** The parent exception's state after construction. */
  datatype ValidationException = ValidationException(message: Option<string>, errors: ErrorArg, code: int)

  /** The failure of calling `toArray()` on something that is not an object. */
  datatype ConstructionError = MethodOnArray

  /** One field's text: its messages joined by ", ". */
  function FieldText(entry: (string, seq<string>)): string {
    Implode(entry.1, ", ")
  }

  /** The message of a bag: the field texts joined by " ". */
  function BagMessage(bag: ErrorBag): string {
    Implode(MapSeq(bag, FieldText), " ")
  }

  /** The constructor: a falsy `$errors` (null or an empty array) leaves the
    * message null, a message bag gives its joined text, and a non-empty
    * array fails on the method call. */
  function Construct(errors: ErrorArg, code: int): (r: Result<ValidationException, ConstructionError>)
    ensures r.Ok? ==> r.value.errors == errors && r.value.code == code
    ensures r.Err? <==> errors.PlainArray? && errors.entries != []
    ensures r.Ok? ==> (r.value.message.None? <==> errors.NullErrors? || errors.PlainArray?)
    ensures r.Ok? && errors.MessageBag? ==> r.value.message == Some(BagMessage(errors.bag))
  {
    match errors
    case NullErrors => Ok(ValidationException(None, errors, code))
    case MessageBag(bag) => Ok(ValidationException(Some(BagMessage(bag)), errors, code))
    case PlainArray(entries) =>
      if entries == [] then Ok(ValidationException(None, errors, code)) else Err(MethodOnArray)
  }

  /** No errors, no message; an empty bag still gives a message, the empty
    * one. */
  lemma EmptyInputs(code: int)
    ensures Construct(NullErrors, code) == Ok(ValidationException(None, NullErrors, code))
    ensures Construct(MessageBag([]), code) == Ok(ValidationException(Some(""), MessageBag([]), code))
  {
    assert MapSeq([], FieldText) == [];
  }

  /** The joined text starts with the first part, and the separator follows
    * it when there is more than one part. */
  lemma ImplodeStartsWithFirst(parts: seq<string>, sep: string)
    requires |parts| >= 1
    ensures |Implode(parts, sep)| >= |parts[0]|
    ensures Implode(parts, sep)[..|parts[0]|] == parts[0]
    ensures |parts| > 1 ==> Implode(parts, sep)[|parts[0]|..|parts[0]| + |sep|] == sep
  {
    if |parts| > 1 {
      var s := Implode(parts, sep);
      assert s == parts[0] + sep + Implode(parts[1..], sep);
      assert s[..|parts[0]|] == parts[0];
      assert s[|parts[0]|..|parts[0]| + |sep|] == sep;
    }
  }

  /** The message opens with the first field's messages, in order, and a
    * space follows them when another field comes after. */
  lemma FirstFieldLeads(bag: ErrorBag)
    requires |bag| >= 1
    ensures var m := BagMessage(bag); var first := FieldText(bag[0]);
      |m| >= |first| && m[..|first|] == first
      && (|bag| > 1 ==> m[|first|..|first| + 1] == " ")
  {
    var texts := MapSeq(bag, FieldText);
    ImplodeStartsWithFirst(texts, " ");
  }

  /** The message of a field that holds exactly one. */
  function SoleMessage(entry: (string, seq<string>)): string {
    if |entry.1| == 1 then entry.1[0] else ""
  }

  /** When every field holds one message without spaces, splitting the
    * message at spaces gives back the messages, one per field. */
  lemma SingleMessagesRoundTrip(bag: ErrorBag)
    requires |bag| >= 1
    requires forall i :: 0 <= i < |bag| ==> |bag[i].1| == 1 && ' ' !in bag[i].1[0]
    ensures Explode(BagMessage(bag), ' ') == MapSeq(bag, SoleMessage)
  {
    var texts := MapSeq(bag, FieldText);
    forall i | 0 <= i < |bag| ensures texts[i] == bag[i].1[0] {
      assert Implode(bag[i].1, ", ") == bag[i].1[0];
    }
    ExplodeImplode(texts, ' ');
    assert texts == MapSeq(bag, SoleMessage);
  }
}

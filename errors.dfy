/**
 * Exceptions as values, and `extract_attribute_errors`, which turns a `ValidationError`
 * into a map from attribute to messages.
 */
module Errors {
  import opened Common

  /**
   * What a Django `ValidationError` carries: built from a dict it has a `message_dict`
   * (kept here as its items, in insertion order); built from a message or a list of
   * messages it has only `messages`.
   */
  datatype ErrorPayload =
    | DictForm(items: seq<(string, seq<string>)>)
    | ListForm(messages: seq<string>)

  /** `AuditError` is a subclass of `ValidationError`; `OtherErr` is any other exception. */
  datatype Exception = AuditErr(payload: ErrorPayload) | ValidationErr(payload: ErrorPayload) | OtherErr

  predicate IsValidationError(e: Exception)
  {
    e.AuditErr? || e.ValidationErr?
  }

  /** How a call ends: it returns, or it raises. */
  datatype Outcome = Normal | Raised(exc: Exception)

  /** The messages of the items, one after another (`ValidationError.messages` of a dict-form error). */
  function Flatten(items: seq<(string, seq<string>)>): seq<string>
  {
    if items == [] then [] else Flatten(items[..|items| - 1]) + Last(items).1
  }

  /** `ValidationError.messages`. */
  function Messages(e: ErrorPayload): seq<string>
  {
    match e
    case DictForm(items) => Flatten(items)
    case ListForm(messages) => messages
  }

  /** A value of the map `extract_attribute_errors` returns: a list of messages, or one message under `"all"`. */
  datatype ErrorEntry = MessageList(list: seq<string>) | Single(message: string)

  /** The attribute names of a dict-form error. */
  function KeysOf(items: seq<(string, seq<string>)>): set<string>
  {
    set i | 0 <= i < |items| :: items[i].0
  }

  /** The messages listed under attribute `a`, in order. */
  function MessagesFor(items: seq<(string, seq<string>)>, a: string): seq<string>
  {
    if items == [] then []
    else MessagesFor(items[..|items| - 1], a) + (if Last(items).0 == a then Last(items).1 else [])
  }

  /** The map `extract_attribute_errors` returns for an error. */
  function AttributeErrors(e: ErrorPayload): (r: map<string, ErrorEntry>)
    ensures e.DictForm? ==> r.Keys <= KeysOf(e.items)
    ensures e.ListForm? ==> r.Keys <= {"all"}
  {
    match e
    case DictForm(items) =>
      map a | a in KeysOf(items) && MessagesFor(items, a) != [] :: MessageList(MessagesFor(items, a))
    case ListForm(messages) =>
      if messages == [] then map[] else map["all" := Single(Last(messages))]
  }

  /**
   * `extract_attribute_errors`: appends each message of `message_dict` under its attribute
   * in a `defaultdict(list)`; when the error has no `message_dict`, stores each message in
   * turn as the single value under `"all"`. The local `exclude_attributes` list the source
   * fills is never read.
   */
  method ExtractAttributeErrors(e: ErrorPayload) returns (errors: map<string, ErrorEntry>)
    ensures errors == AttributeErrors(e)
  {
    errors := map[];
    match e
    case DictForm(items) =>
      var i := 0;
      while i < |items|
        invariant 0 <= i <= |items|
        invariant errors == AttributeErrors(DictForm(items[..i]))
      {
        errors := AppendAttribute(items[..i], items[i].0, items[i].1, errors);
        assert items[..i + 1] == items[..i] + [(items[i].0, items[i].1)];
        i := i + 1;
      }
      assert items[..i] == items;
    case ListForm(messages) =>
      var j := 0;
      while j < |messages|
        invariant 0 <= j <= |messages|
        invariant errors == AttributeErrors(ListForm(messages[..j]))
      {
        errors := errors["all" := Single(messages[j])];
        j := j + 1;
      }
      assert messages[..j] == messages;
  }

  /** The inner loop of the dict case: each message of one attribute appended to its list. */
  method AppendAttribute(ghost items: seq<(string, seq<string>)>, attribute: string, messages: seq<string>,
                         errors0: map<string, ErrorEntry>)
    returns (errors: map<string, ErrorEntry>)
    requires errors0 == AttributeErrors(DictForm(items))
    ensures errors == AttributeErrors(DictForm(items + [(attribute, messages)]))
  {
    errors := errors0;
    var j := 0;
    assert messages[..j] == [];
    DictAppendEmpty(items, attribute);
    while j < |messages|
      invariant 0 <= j <= |messages|
      invariant errors == AttributeErrors(DictForm(items + [(attribute, messages[..j])]))
    {
      var current := if attribute in errors then errors[attribute].list else [];
      DictAppendMessage(items, attribute, messages[..j], messages[j]);
      assert messages[..j + 1] == messages[..j] + [messages[j]];
      errors := errors[attribute := MessageList(current + [messages[j]])];
      j := j + 1;
    }
    assert messages[..j] == messages;
  }

  lemma MessagesForAppend(items: seq<(string, seq<string>)>, item: (string, seq<string>), a: string)
    ensures MessagesFor(items + [item], a) == MessagesFor(items, a) + (if item.0 == a then item.1 else [])
  {
    assert (items + [item])[..|items|] == items;
  }

  lemma KeysOfAppend(items: seq<(string, seq<string>)>, item: (string, seq<string>))
    ensures KeysOf(items + [item]) == KeysOf(items) + {item.0}
  {
    var t := items + [item];
    assert t[|items|].0 == item.0;
    forall x | x in KeysOf(items) ensures x in KeysOf(t) {
      var i :| 0 <= i < |items| && items[i].0 == x;
      assert t[i].0 == x;
    }
  }

  /** An attribute with no messages (yet) adds no entry. */
  lemma DictAppendEmpty(items: seq<(string, seq<string>)>, a: string)
    ensures AttributeErrors(DictForm(items + [(a, [])])) == AttributeErrors(DictForm(items))
  {
    KeysOfAppend(items, (a, []));
    forall x ensures MessagesFor(items + [(a, [])], x) == MessagesFor(items, x) {
      MessagesForAppend(items, (a, []), x);
    }
    MessagesForNonEmptyInKeys(items, a);
  }

  /** One more message under `a` extends `a`'s list and leaves every other entry alone. */
  lemma DictAppendMessage(items: seq<(string, seq<string>)>, a: string, ms: seq<string>, m: string)
    ensures var before := AttributeErrors(DictForm(items + [(a, ms)]));
            AttributeErrors(DictForm(items + [(a, ms + [m])])) ==
              before[a := MessageList((if a in before then before[a].list else []) + [m])]
  {
    var t0, t1 := items + [(a, ms)], items + [(a, ms + [m])];
    var before, after := AttributeErrors(DictForm(t0)), AttributeErrors(DictForm(t1));
    var expected := before[a := MessageList((if a in before then before[a].list else []) + [m])];
    forall x
      ensures x in after <==> x in expected
      ensures x in after ==> after[x] == expected[x]
    {
      DictEntry(t0, x);
      DictEntry(t1, x);
      MessagesForAppend(items, (a, ms), x);
      MessagesForAppend(items, (a, ms + [m]), x);
      if x == a {
        assert MessagesFor(t1, x) == MessagesFor(t0, x) + [m];
        assert x in after && x in expected;
      } else {
        assert MessagesFor(t1, x) == MessagesFor(t0, x);
        assert x in expected <==> x in before;
      }
    }
    assert after == expected;
  }

  /** An attribute has an entry exactly when messages are listed under it, and the entry is them. */
  lemma DictEntry(items: seq<(string, seq<string>)>, x: string)
    ensures x in AttributeErrors(DictForm(items)) <==> MessagesFor(items, x) != []
    ensures x in AttributeErrors(DictForm(items)) ==> AttributeErrors(DictForm(items))[x] == MessageList(MessagesFor(items, x))
  {
    MessagesForNonEmptyInKeys(items, x);
  }

  lemma {:induction false} MessagesForNonEmptyInKeys(items: seq<(string, seq<string>)>, a: string)
    ensures MessagesFor(items, a) != [] ==> a in KeysOf(items)
  {
    if items != [] {
      var init := items[..|items| - 1];
      MessagesForNonEmptyInKeys(init, a);
      assert items == init + [Last(items)];
      KeysOfAppend(init, Last(items));
    }
  }

  predicate DistinctAttributes(items: seq<(string, seq<string>)>)
  {
    forall i, j :: 0 <= i < j < |items| ==> items[i].0 != items[j].0
  }

  /** In a dict (distinct attributes), the messages under an attribute are exactly its list. */
  lemma {:induction false} MessagesForDistinct(items: seq<(string, seq<string>)>, i: nat)
    requires DistinctAttributes(items) && i < |items|
    ensures MessagesFor(items, items[i].0) == items[i].1
  {
    var init := items[..|items| - 1];
    assert items == init + [Last(items)];
    MessagesForAppend(init, Last(items), items[i].0);
    if i < |items| - 1 {
      MessagesForDistinct(init, i);
    } else {
      MessagesForAbsent(init, items[i].0);
    }
  }

  lemma {:induction false} MessagesForAbsent(items: seq<(string, seq<string>)>, a: string)
    requires forall i :: 0 <= i < |items| ==> items[i].0 != a
    ensures MessagesFor(items, a) == []
  {
    if items != [] {
      MessagesForAbsent(items[..|items| - 1], a);
    }
  }

  /**
   * Dict form: each attribute with messages maps to its messages in their original order,
   * and an attribute listed with no messages is absent.
   */
  lemma DictFormEntries(items: seq<(string, seq<string>)>, i: nat)
    requires DistinctAttributes(items) && i < |items|
    ensures items[i].1 != [] ==>
              items[i].0 in AttributeErrors(DictForm(items))
              && AttributeErrors(DictForm(items))[items[i].0] == MessageList(items[i].1)
    ensures items[i].1 == [] ==> items[i].0 !in AttributeErrors(DictForm(items))
  {
    MessagesForDistinct(items, i);
    assert items[i].0 in KeysOf(items);
  }

  /** List form: the only possible key is `"all"`, holding the last message as a single string. */
  lemma ListFormEntry(messages: seq<string>)
    ensures messages == [] <==> AttributeErrors(ListForm(messages)) == map[]
    ensures messages != [] ==> AttributeErrors(ListForm(messages)) == map["all" := Single(Last(messages))]
  {
    if messages != [] {
      assert "all" in AttributeErrors(ListForm(messages));
    }
  }
}

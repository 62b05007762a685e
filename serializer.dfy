/**
 * `LookupModule._entry_to_dict`: an entry becomes a flat dictionary. The
 * function `Serialize` says what the dictionary is; the method `EntryToDict`
 * builds it the way the plugin does, by removing names from the attribute
 * list and filling the dictionary key by key.
 */
module Serialization {
  import opened Wrappers
  import opened Entries

  /** Why serialisation can fail: `list.remove` of a name that is not in the
      attribute list raises `ValueError`. */
  datatype Error = MissingAttribute(name: string)

  /** The attribute names still in the list when the plugin reaches its
      final loop: the public names minus the structured four, and minus
      `password` unless the password was requested. */
  function Remaining(e: Entry, includePassword: bool): (names: set<string>)
  {
    if includePassword then e.fields.Keys else e.fields.Keys - {Password}
  }

  /** The filename of each attachment, in order. */
  function Filenames(attachments: seq<Attachment>): (names: seq<string>)
  {
    seq(|attachments|, i requires 0 <= i < |attachments| => attachments[i].filename)
  }

  /** `str()` of each of the named plain attributes. */
  function Stringified(e: Entry, names: set<string>): (items: map<string, Item>)
    requires names <= e.fields.Keys
  {
    map k | k in names :: Str(ToStr(e.fields[k]))
  }

  /** The four specially converted keys, given the serialised history. */
  function StructuredItems(e: Entry, history: seq<Record>): (items: map<string, Item>)
  {
    map["attachments" := StrList(Filenames(e.attachments)),
        "group" := Str(e.group.path),
        "parentgroup" := Str(e.parentgroup.path),
        "history" := RecordList(history)]
  }

  /** One turn of the final loop: storing `str()` of one more plain
      attribute extends the stringified part and leaves the four structured
      keys alone. */
  lemma StringifiedStep(e: Entry, done: set<string>, attr: string, structured: map<string, Item>)
    requires done <= e.fields.Keys && attr in e.fields
    requires structured.Keys == Structured
    ensures (Stringified(e, done) + structured)[attr := Str(ToStr(e.fields[attr]))]
         == Stringified(e, done + {attr}) + structured
  {
    assert attr !in structured;
  }

  /** What `_entry_to_dict(entry, include_password)` returns or raises. */
  function Serialize(e: Entry, includePassword: bool): (r: Result<Record, Error>)
    decreases e
  {
    if !includePassword && Password !in PublicNames(e) then
      Failure(MissingAttribute(Password))
    else
      match SerializeHistory(e.history, includePassword)
      case Failure(err) => Failure(err)
      case Success(history) =>
        Success(Record(Stringified(e, Remaining(e, includePassword)) + StructuredItems(e, history)))
  }

  /** The list comprehension over `entry.history`: each snapshot serialised
      in order with the same flag; the first failure propagates. */
  function SerializeHistory(history: seq<Entry>, includePassword: bool): (r: Result<seq<Record>, Error>)
    decreases history
  {
    if history == [] then Success([])
    else Prepend(Serialize(history[0], includePassword), SerializeHistory(history[1..], includePassword))
  }

  /** Every entry, at every level of history, has a `password` attribute. */
  ghost predicate PasswordThroughout(e: Entry)
  {
    Password in e.fields && forall i :: 0 <= i < |e.history| ==> PasswordThroughout(e.history[i])
  }

  /** No `password` key in the record, nor in any record nested in its history. */
  ghost predicate PasswordFree(r: Record)
  {
    Password !in r.fields &&
    ("history" in r.fields && r.fields["history"].RecordList? ==>
       forall i :: 0 <= i < |r.fields["history"].records| ==> PasswordFree(r.fields["history"].records[i]))
  }

  /** The outcome for the snapshots from `i` on, one snapshot unfolded. */
  lemma HistoryUnfold(history: seq<Entry>, i: nat, includePassword: bool)
    requires i < |history|
    ensures SerializeHistory(history[i..], includePassword) ==
              Prepend(Serialize(history[i], includePassword), SerializeHistory(history[i + 1..], includePassword))
  {
    assert history[i..][0] == history[i];
    assert history[i..][1..] == history[i + 1..];
  }

  /** The history list succeeds exactly when every snapshot does, and then
      it holds one record per snapshot, in order. */
  lemma {:induction false} HistoryElementwise(history: seq<Entry>, includePassword: bool)
    ensures SerializeHistory(history, includePassword).Success? <==>
              forall i :: 0 <= i < |history| ==> Serialize(history[i], includePassword).Success?
    ensures SerializeHistory(history, includePassword).Success? ==>
              var rs := SerializeHistory(history, includePassword).value;
              |rs| == |history| &&
              forall i :: 0 <= i < |history| ==> Serialize(history[i], includePassword) == Success(rs[i])
    decreases history
  {
    if history != [] {
      HistoryElementwise(history[1..], includePassword);
      forall i | 1 <= i < |history|
        ensures history[i] == history[1..][i - 1]
      {
      }
    }
  }

  /** Serialisation fails exactly when the password was not requested and
      some entry, at some level of history, lacks a `password` attribute. */
  lemma {:induction false} SerializeSucceeds(e: Entry, includePassword: bool)
    ensures Serialize(e, includePassword).Success? <==> includePassword || PasswordThroughout(e)
    ensures Serialize(e, includePassword).Failure? ==>
              Serialize(e, includePassword).error == MissingAttribute(Password)
    decreases e
  {
    HistoryElementwise(e.history, includePassword);
    forall i | 0 <= i < |e.history| {
      SerializeSucceeds(e.history[i], includePassword);
    }
    HistoryFailure(e.history, includePassword);
  }

  /** A failing history list fails for the missing password. */
  lemma {:induction false} HistoryFailure(history: seq<Entry>, includePassword: bool)
    ensures SerializeHistory(history, includePassword).Failure? ==>
              SerializeHistory(history, includePassword).error == MissingAttribute(Password)
    decreases history
  {
    if history != [] {
      SerializeSucceeds(history[0], includePassword);
      HistoryFailure(history[1..], includePassword);
    }
  }

  /** The keys of a serialised entry are the structured four plus the plain
      attributes, without `password` unless requested, and every plain key
      holds `str()` of its attribute. */
  lemma SerializeKeys(e: Entry, includePassword: bool, r: Record)
    requires Serialize(e, includePassword) == Success(r)
    ensures r.fields.Keys == Structured + (if includePassword then e.fields.Keys else e.fields.Keys - {Password})
    ensures (Password in r.fields) <==> includePassword && Password in e.fields
    ensures forall k :: k in r.fields && k !in Structured ==> k in e.fields && r.fields[k] == Str(ToStr(e.fields[k]))
  {
    var history := SerializeHistory(e.history, includePassword).value;
    assert r.fields.Keys == Remaining(e, includePassword) + StructuredItems(e, history).Keys;
  }

  /** The structured keys of a serialised entry: the attachment filenames
      in order, the two group paths, and one record per history snapshot,
      serialised with the same flag. */
  lemma SerializeStructured(e: Entry, includePassword: bool, r: Record)
    requires Serialize(e, includePassword) == Success(r)
    ensures r.fields["attachments"].StrList?
    ensures |r.fields["attachments"].items| == |e.attachments|
    ensures forall i :: 0 <= i < |e.attachments| ==> r.fields["attachments"].items[i] == e.attachments[i].filename
    ensures r.fields["group"] == Str(e.group.path)
    ensures r.fields["parentgroup"] == Str(e.parentgroup.path)
    ensures r.fields["history"].RecordList?
    ensures |r.fields["history"].records| == |e.history|
    ensures forall i :: 0 <= i < |e.history| ==>
              Serialize(e.history[i], includePassword) == Success(r.fields["history"].records[i])
  {
    HistoryElementwise(e.history, includePassword);
  }

  /** The shape of a serialised entry: its keys are the structured four plus
      the plain attributes (without `password` unless requested); the
      attachments are the filenames in order, the group keys are the groups'
      paths, the history holds one record per snapshot serialised with the
      same flag, and every other key holds `str()` of its attribute. */
  lemma SerializeShape(e: Entry, includePassword: bool, r: Record)
    requires Serialize(e, includePassword) == Success(r)
    ensures r.fields.Keys == Structured + (if includePassword then e.fields.Keys else e.fields.Keys - {Password})
    ensures (Password in r.fields) <==> includePassword && Password in e.fields
    ensures r.fields["attachments"].StrList?
    ensures |r.fields["attachments"].items| == |e.attachments|
    ensures forall i :: 0 <= i < |e.attachments| ==> r.fields["attachments"].items[i] == e.attachments[i].filename
    ensures r.fields["group"] == Str(e.group.path)
    ensures r.fields["parentgroup"] == Str(e.parentgroup.path)
    ensures r.fields["history"].RecordList?
    ensures |r.fields["history"].records| == |e.history|
    ensures forall i :: 0 <= i < |e.history| ==>
              Serialize(e.history[i], includePassword) == Success(r.fields["history"].records[i])
    ensures forall k :: k in r.fields && k !in Structured ==> k in e.fields && r.fields[k] == Str(ToStr(e.fields[k]))
  {
    SerializeKeys(e, includePassword, r);
    SerializeStructured(e, includePassword, r);
  }

  /** Without the password flag no record, at any level of history, has a
      `password` key. */
  lemma {:induction false} PasswordExcluded(e: Entry, r: Record)
    requires Serialize(e, false) == Success(r)
    ensures PasswordFree(r)
    decreases e
  {
    SerializeShape(e, false, r);
    var records := r.fields["history"].records;
    forall i | 0 <= i < |records|
      ensures PasswordFree(records[i])
    {
      PasswordExcluded(e.history[i], records[i]);
    }
  }

  /** `_entry_to_dict` as the plugin runs it. */
  method EntryToDict(e: Entry, includePassword: bool) returns (r: Result<Record, Error>)
    ensures r == Serialize(e, includePassword)
    decreases e
  {
    var attributes := PublicNames(e);
    if !includePassword {
      if Password !in attributes {
        return Failure(MissingAttribute(Password));
      }
      attributes := attributes - {Password};
    }
    var ret: map<string, Item> := map[];
    ret := ret["attachments" := StrList(Filenames(e.attachments))];
    attributes := attributes - {"attachments"};
    ret := ret["group" := Str(e.group.path)];
    attributes := attributes - {"group"};
    ret := ret["parentgroup" := Str(e.parentgroup.path)];
    attributes := attributes - {"parentgroup"};

    var serialised := HistoryToDicts(e.history, includePassword);
    if serialised.Failure? {
      return Failure(serialised.error);
    }
    var history := serialised.value;
    ret := ret["history" := RecordList(history)];
    attributes := attributes - {"history"};

    assert attributes == Remaining(e, includePassword);
    ghost var structured := ret;
    assert structured == StructuredItems(e, history);
    while attributes != {}
      invariant attributes <= Remaining(e, includePassword)
      invariant ret == Stringified(e, Remaining(e, includePassword) - attributes) + structured
      decreases attributes
    {
      var attr :| attr in attributes;
      StringifiedStep(e, Remaining(e, includePassword) - attributes, attr, structured);
      assert Remaining(e, includePassword) - (attributes - {attr})
          == (Remaining(e, includePassword) - attributes) + {attr};
      ret := ret[attr := Str(ToStr(e.fields[attr]))];
      attributes := attributes - {attr};
    }
    assert Remaining(e, includePassword) - attributes == Remaining(e, includePassword);
    assert SerializeHistory(e.history, includePassword) == Success(history);
    return Success(Record(ret));
  }

  /** The comprehension over `entry.history`, one snapshot at a time. */
  method HistoryToDicts(history: seq<Entry>, includePassword: bool) returns (r: Result<seq<Record>, Error>)
    ensures r == SerializeHistory(history, includePassword)
    decreases history
  {
    var done: seq<Record> := [];
    var i := 0;
    assert history[0..] == history;
    PrefixedEnds(done, SerializeHistory(history, includePassword));
    while i < |history|
      invariant 0 <= i <= |history|
      invariant SerializeHistory(history, includePassword) ==
                  Prefixed(done, SerializeHistory(history[i..], includePassword))
    {
      var h := EntryToDict(history[i], includePassword);
      HistoryUnfold(history, i, includePassword);
      PrefixedStep(done, Serialize(history[i], includePassword), SerializeHistory(history[i + 1..], includePassword));
      if h.Failure? {
        return Failure(h.error);
      }
      done := done + [h.value];
      i := i + 1;
    }
    assert history[i..] == [];
    PrefixedEnds(done, SerializeHistory(history, includePassword));
    return Success(done);
  }
}

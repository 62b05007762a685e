/**
 * `LookupModule.run`: each term is an exact entry path; its entry is looked
 * up and serialised, and the records come back in term order. The database
 * handle is already open; its `find_entries(path=term)` is the parameter
 * `find`.
 */
module Lookup {
  import opened Wrappers
  import opened Entries
  import Serialization

  /** Why a lookup call fails. */
  datatype Error =
    | NotFound(term: string)                  // no entry has the path
    | Unserialisable(cause: Serialization.Error) // `_entry_to_dict` raised

  /** One term: look the entry up and serialise it. */
  function LookupTerm(find: string -> Option<Entry>, term: string, includePassword: bool): (r: Result<Record, Error>)
  {
    match find(term)
    case None => Failure(NotFound(term))
    case Some(entry) =>
      match Serialization.Serialize(entry, includePassword)
      case Failure(err) => Failure(Unserialisable(err))
      case Success(r) => Success(r)
  }

  /** What `run(terms)` returns or raises: the records of all terms in order,
      or the failure of the first term that fails. */
  function LookupAll(find: string -> Option<Entry>, terms: seq<string>, includePassword: bool): (r: Result<seq<Record>, Error>)
  {
    if terms == [] then Success([])
    else Prepend(LookupTerm(find, terms[0], includePassword), LookupAll(find, terms[1..], includePassword))
  }

  /** The outcome for the terms from `i` on, one term unfolded. */
  lemma LookupUnfold(find: string -> Option<Entry>, terms: seq<string>, i: nat, includePassword: bool)
    requires i < |terms|
    ensures LookupAll(find, terms[i..], includePassword) ==
              Prepend(LookupTerm(find, terms[i], includePassword), LookupAll(find, terms[i + 1..], includePassword))
  {
    assert terms[i..][0] == terms[i];
    assert terms[i..][1..] == terms[i + 1..];
  }

  /** `run` as the plugin runs it once the database is open. */
  method Run(find: string -> Option<Entry>, terms: seq<string>, includePassword: bool)
    returns (r: Result<seq<Record>, Error>)
    ensures r == LookupAll(find, terms, includePassword)
  {
    var ret: seq<Record> := [];
    assert terms[0..] == terms;
    PrefixedEnds(ret, LookupAll(find, terms, includePassword));
    for i := 0 to |terms|
      invariant LookupAll(find, terms, includePassword) ==
                  Prefixed(ret, LookupAll(find, terms[i..], includePassword))
    {
      LookupUnfold(find, terms, i, includePassword);
      PrefixedStep(ret, LookupTerm(find, terms[i], includePassword), LookupAll(find, terms[i + 1..], includePassword));
      var entry := find(terms[i]);
      if entry == None {
        return Failure(NotFound(terms[i]));
      }
      var d := Serialization.EntryToDict(entry.value, includePassword);
      if d.Failure? {
        return Failure(Unserialisable(d.error));
      }
      ret := ret + [d.value];
    }
    assert terms[|terms|..] == [];
    PrefixedEnds(ret, LookupAll(find, terms, includePassword));
    return Success(ret);
  }

  /** A call succeeds exactly when every term names an entry that serialises;
      it then returns one record per term, in term order, each the
      serialisation of that term's entry. */
  lemma {:induction false} OnePerTerm(find: string -> Option<Entry>, terms: seq<string>, includePassword: bool)
    ensures LookupAll(find, terms, includePassword).Success? <==>
              forall i :: 0 <= i < |terms| ==>
                find(terms[i]).Some? && Serialization.Serialize(find(terms[i]).value, includePassword).Success?
    ensures LookupAll(find, terms, includePassword).Success? ==>
              var rs := LookupAll(find, terms, includePassword).value;
              |rs| == |terms| &&
              forall i :: 0 <= i < |terms| ==>
                Serialization.Serialize(find(terms[i]).value, includePassword) == Success(rs[i])
    decreases terms
  {
    if terms != [] {
      OnePerTerm(find, terms[1..], includePassword);
      forall i | 1 <= i < |terms|
        ensures terms[i] == terms[1..][i - 1]
      {
      }
    }
  }

  /** A term that finds no entry fails the call with no partial list: the
      call reports that term when every earlier term succeeded. */
  lemma {:induction false} MissingTermFails(find: string -> Option<Entry>, terms: seq<string>, includePassword: bool, i: nat)
    requires i < |terms| && find(terms[i]).None?
    ensures LookupAll(find, terms, includePassword).Failure?
    ensures (forall j :: 0 <= j < i ==> LookupTerm(find, terms[j], includePassword).Success?) ==>
              LookupAll(find, terms, includePassword) == Failure(NotFound(terms[i]))
    decreases terms
  {
    if i > 0 {
      MissingTermFails(find, terms[1..], includePassword, i - 1);
      if forall j :: 0 <= j < i ==> LookupTerm(find, terms[j], includePassword).Success? {
        forall j | 0 <= j < i - 1
          ensures LookupTerm(find, terms[1..][j], includePassword).Success?
        {
          assert terms[1..][j] == terms[j + 1];
        }
      }
    }
  }

  /** Without the password flag no returned record, nor any record in its
      history, carries a `password` key. */
  lemma PasswordNeverReturned(find: string -> Option<Entry>, terms: seq<string>, rs: seq<Record>)
    requires LookupAll(find, terms, false) == Success(rs)
    ensures forall i :: 0 <= i < |rs| ==> Serialization.PasswordFree(rs[i])
  {
    OnePerTerm(find, terms, false);
    forall i | 0 <= i < |rs|
      ensures Serialization.PasswordFree(rs[i])
    {
      Serialization.PasswordExcluded(find(terms[i]).value, rs[i]);
    }
  }

  /** A worked case: `Servers/db1` with user `admin`, password `secret` and
      one attachment `key.pem`, in a database that has no other entry. */
  function Db1(): Entry
  {
    Entry(map["title" := Text("db1"), "username" := Text("admin"), "password" := Text("secret")],
          [Attachment("key.pem")], Group("Servers"), Group("/"), [])
  }

  function FindDb1(term: string): Option<Entry>
  {
    if term == "Servers/db1" then Some(Db1()) else None
  }

  /** Looked up without the password flag, `Servers/db1` gives the record
      below; adding the unknown `Servers/db2` fails the whole call. */
  lemma ServersDb1()
    ensures LookupAll(FindDb1, ["Servers/db1"], false) ==
              Success([Record(map["title" := Str("db1"), "username" := Str("admin"),
                                  "attachments" := StrList(["key.pem"]), "group" := Str("Servers"),
                                  "parentgroup" := Str("/"), "history" := RecordList([])])])
    ensures LookupAll(FindDb1, ["Servers/db1", "Servers/db2"], false) == Failure(NotFound("Servers/db2"))
  {
    var expected := Record(map["title" := Str("db1"), "username" := Str("admin"),
                               "attachments" := StrList(["key.pem"]), "group" := Str("Servers"),
                               "parentgroup" := Str("/"), "history" := RecordList([])]);
    assert Serialization.Remaining(Db1(), false) == {"title", "username"};
    assert Serialization.Filenames(Db1().attachments) == ["key.pem"];
    assert Serialization.SerializeHistory(Db1().history, false) == Success([]);
    assert Serialization.Stringified(Db1(), {"title", "username"}) ==
             map["title" := Str("db1"), "username" := Str("admin")];
    assert Serialization.Stringified(Db1(), {"title", "username"}) + Serialization.StructuredItems(Db1(), [])
        == expected.fields;
    assert Serialization.Serialize(Db1(), false) == Success(expected);
    assert LookupTerm(FindDb1, "Servers/db1", false) == Success(expected);
    var one: seq<string> := ["Servers/db1"];
    assert one[0] == "Servers/db1" && one[1..] == [];
    assert [expected] + [] == [expected];
    var two: seq<string> := ["Servers/db1", "Servers/db2"];
    assert two[0] == "Servers/db1" && two[1..] == ["Servers/db2"];
    assert LookupAll(FindDb1, ["Servers/db2"], false) == Failure(NotFound("Servers/db2"));
  }
}

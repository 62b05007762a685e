# KeePass lookup plugin — entry serialisation and term lookup

This project models the Ansible lookup plugin `keepass` (`LookupModule` in
`keepass.py`). It covers two operations:

- **`run`**: for each term, in order, it looks up the entry whose path is
  exactly that term. If any term finds nothing, the whole call fails.
  Otherwise it returns one dictionary per term.
- **`_entry_to_dict`**: it turns an entry into a flat dictionary. The
  `password` attribute is dropped unless `include_password` is set. Four keys
  are converted specially:
  - `attachments`: the attachment filenames.
  - `group`: the path of the owning group.
  - `parentgroup`: the path of the parent group.
  - `history`: each history snapshot, serialised the same way with the same
    flag.

  Every other public attribute becomes its Python `str()` text.

Modules:

- `Wrappers` (`wrappers.dfy`): `Option` and `Result`. It also has two helpers
  for building a list until the first failure, and two lemmas about them
  that the loops use.
- `Entries` (`entries.dfy`): the data model.
  - An `Entry` holds its plain attributes as a map from name to `Value`. The
    map cannot hold the four structured names. The entry also holds its
    attachments, its group, its parent group and its history.
  - `PublicNames` stands for the names `dir(entry)` yields after callables
    and `_`-prefixed names are filtered out.
  - `Attachment` holds only a filename and `Group` only a path, since those
    are the only fields the plugin reads.
  - `ToStr` is Python's `str()`. It is spelled out for text, booleans and
    `None`. Any other object carries its own `str()` text.
  - `Record` and `Item` are the output dictionary.
- `Serialization` (`serializer.dfy`): the pure function `Serialize` says
  what `_entry_to_dict` returns or raises. `SerializeHistory` does the same
  for the history comprehension. The methods `EntryToDict` and
  `HistoryToDicts` build the dictionary the way the plugin does:
  - they take names out of the attribute list;
  - they fill the dictionary key by key;
  - they loop over the snapshots and over the remaining attributes.

  Both methods are proved equal to the functions. Lemmas state the shape of
  the result, when serialisation fails, and that no `password` key appears
  at any depth.
- `Lookup` (`lookup.dfy`): the function `LookupAll` says what `run` returns
  or raises, and the method `Run` is the term loop, proved equal to it. The
  database's `find_entries(path=term)` is the parameter `find`, a function
  from path to `Option<Entry>`.

Failures are `Result.Failure` values:

- `NotFound(term)`: no entry has that path.
- `Unserialisable(MissingAttribute("password"))`: `list.remove('password')`
  raised because the entry has no `password` attribute. This applies only
  when the password was not requested.

Facts about the code that the model keeps:

- Lookup is by exact path only. The `regex` option is read (keepass.py:64)
  but never used.
- Every plain attribute is passed through `str()`, so `None` becomes the
  text `None` and `True` becomes the text `True`.
- The code has no guard against cyclic history. In the model an entry is a
  finite value, so the recursion over history always terminates.
- The error paths name `CredentialsError`, `HeaderChecksumError`,
  `PayloadChecksumError`, `to_native` and `AnsibleLookupError`, none of
  which are imported. When one of those paths is taken, Python raises
  `NameError` instead of the intended Ansible error. Either way the call
  fails with no result. The model records only that the call fails and why
  (`NotFound`), not which Python exception carries it.

Serialisation is a function of the entry and the flag, so serialising the
same snapshot twice gives the same dictionary.

## Model

| member | source | states |
|---|---|---|
| `Serialization.EntryToDict` | keepass.py:89-109 | The imperative serialiser returns exactly `Serialize(e, includePassword)`: the same dictionary, or the same `list.remove` failure |
| `Serialization.HistoryToDicts` | keepass.py:103 | Serialising the snapshots one by one gives exactly `SerializeHistory`: one record per snapshot in order, or the first failure |
| `Serialization.HistoryUnfold` | keepass.py:103 | The history from snapshot i on is snapshot i's outcome in front of the history from i + 1 on: its failure if it fails, else its record followed by the rest |
| `Serialization.HistoryElementwise` | keepass.py:103 | The history serialises exactly when every snapshot does. It then has as many records as the entry has snapshots, and record i is the serialisation of snapshot i with the same flag |
| `Serialization.HistoryFailure` | keepass.py:103 | A failing history fails only for a missing `password` attribute |
| `Serialization.SerializeSucceeds` | keepass.py:93-103 | Serialisation succeeds if and only if the password was requested or every entry at every history depth has a `password` attribute. When it fails, the error is the missing `password` |
| `Serialization.SerializeKeys` | keepass.py:91-108 | The keys are exactly the four structured names plus the plain attribute names, minus `password` unless requested. `password` is a key if and only if it was requested and the entry has it. Every non-structured key holds `str()` of its attribute |
| `Serialization.SerializeStructured` | keepass.py:96-103 | `attachments` lists the attachment filenames in order, `group` and `parentgroup` are the two groups' paths, and `history` holds one record per snapshot, record i being snapshot i serialised with the same flag |
| `Serialization.SerializeShape` | keepass.py:91-109 | The keys are exactly the four structured names plus the plain attribute names, minus `password` unless requested. `attachments` is the filename list, `group` and `parentgroup` are the two paths, `history` holds one record per snapshot, and every other key holds `str()` of its attribute |
| `Serialization.PasswordExcluded` | keepass.py:93-94 | Without the flag, neither the record nor any record nested anywhere in its history has a `password` key |
| `Lookup.LookupUnfold` | keepass.py:81-85 | The outcome for the terms from i on is term i's outcome in front of the outcome for the terms from i + 1 on: its failure if it fails, else its record followed by the rest |
| `Lookup.Run` | keepass.py:78-87 | The term loop returns exactly `LookupAll`: the records of all terms in order, or the failure of the first failing term |
| `Lookup.OnePerTerm` | keepass.py:78-87 | A call succeeds if and only if every term finds an entry that serialises. It then returns exactly one record per term, in term order, each the serialisation of that term's entry |
| `Lookup.MissingTermFails` | keepass.py:82-84 | A term that finds no entry makes the call fail, so no partial list comes back. If every earlier term succeeded, the failure is `NotFound` for that term |
| `Lookup.PasswordNeverReturned` | keepass.py:81-85 | Without the flag, no returned record and no record in any history has a `password` key |
| `Lookup.ServersDb1` | keepass.py:78-109 | Entry `Servers/db1` gives `title`, `username`, `attachments = ["key.pem"]`, `group`, `parentgroup` and an empty `history`, with no `password`. Adding an unknown term fails the whole call with `NotFound` |

## Left out

- Opening and decrypting the `.kdbx` file (keepass.py:71-76). It is I/O
  through the `pykeepass` library. The open database appears only as the
  lookup function `find`.
- Option handling through `set_options` and `get_option`
  (keepass.py:62-68), the `DOCUMENTATION` and `RETURN` strings, and the
  `Display` object. These belong to the Ansible host. `include_password` is
  a plain parameter. `regex`, `kdbx_file` and `kdbx_password` do not appear
  in the model.
- `LookupModule` as an object. Its only field, `_keepass`, is set by the
  open step, which is left out. `run` and `_entry_to_dict` therefore become
  module-level members.
- Python reflection (`dir`, `callable`, `getattr`). The entry instead lists
  its public non-callable attributes explicitly, in a map.
- The `_`-prefix filter of keepass.py:91. The entry's map is taken to hold
  only public names; its type does not check that no name starts with `_`.
- The order of keys in the returned dictionary. Python dictionaries keep
  insertion order, but a Dafny map does not. The order in which `dir` lists
  the remaining attributes is likewise not modelled. The final loop takes
  them in any order, which gives the same dictionary.
- The text `str()` produces for datetimes, UUIDs, lists and other library
  objects. Such a value carries its own text in `Value.Object`.
- The exception classes of the failure paths. A failure is `NotFound` or a
  `list.remove` error, not a specific Ansible or Python exception.

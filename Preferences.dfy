/** The user preferences kept in the browser's local storage
    (src/ob_local_storage.js): a user name, an e-mail address, a hypergraph
    name and the file it is loaded from, each stored under its own key as the
    JSON text of an object `{value: ...}`. */
module Preferences {
  import opened Common

  const UserKey: string := "ob_user_name"
  const EmailKey: string := "ob_email"
  const NameKey: string := "ob_hypergraph_name"
  const FileKey: string := "ob_hypergraph_file"

  const Guest: string := "guest"
  const DefaultEmail: string := ""
  const DefaultName: string := "test"
  const DefaultFile: string := "models/hypergraph.json"

  /** The four keys the preferences live under. */
  predicate Managed(k: string)
  {
    k == UserKey || k == EmailKey || k == NameKey || k == FileKey
  }

  /** A parsed JSON value, as far as the preferences tell values apart: a
      bare string, an object whose `value` is a string, or anything else. */
  datatype Value = Text(s: string) | Boxed(value: string) | Other

  /** The four fields of a `LocalStorage` object. */
  datatype Profile = Profile(userName: Value, email: Value, hypergraphName: Value, hypergraphFile: Value)

  /** `toLowerCase` on one character, for the ASCII letters. */
  function LowerChar(c: char): (r: char)
    ensures !('A' <= r <= 'Z')
    ensures !('A' <= c <= 'Z') ==> r == c
  {
    if 'A' <= c <= 'Z' then (c as int + 32) as char else c
  }

  /** `toLowerCase`, character by character. */
  function Lower(s: string): (r: string)
    ensures |r| == |s|
    ensures forall i :: 0 <= i < |s| ==> r[i] == LowerChar(s[i])
  {
    seq(|s|, i requires 0 <= i < |s| => LowerChar(s[i]))
  }

  /** Lowering an already lowered text changes nothing. */
  lemma LowerIdempotent(s: string)
    ensures Lower(Lower(s)) == Lower(s)
  {
  }

  /** `replace(/ /g, "")`: the text without its space characters. */
  function StripSpaces(s: string): (r: string)
    ensures |r| <= |s|
    ensures forall i :: 0 <= i < |r| ==> r[i] != ' '
    ensures r == [] <==> forall i :: 0 <= i < |s| ==> s[i] == ' '
  {
    if s == [] then []
    else if s[0] == ' ' then StripSpaces(s[1..])
    else [s[0]] + StripSpaces(s[1..])
  }

  /** The four default entries written over whatever the store held under
      those keys; `encode` is `JSON.stringify({value: s})`. */
  function Defaults(entries: map<string, string>, encode: string -> string): (r: map<string, string>)
    ensures r.Keys == entries.Keys + {UserKey, EmailKey, NameKey, FileKey}
    ensures r[UserKey] == encode(Guest) && r[EmailKey] == encode(DefaultEmail)
    ensures r[NameKey] == encode(DefaultName) && r[FileKey] == encode(DefaultFile)
    ensures forall k :: k in entries && !Managed(k) ==> r[k] == entries[k]
  {
    entries[UserKey := encode(Guest)][EmailKey := encode(DefaultEmail)]
           [NameKey := encode(DefaultName)][FileKey := encode(DefaultFile)]
  }

  /** Writing the defaults twice is writing them once. */
  lemma DefaultsIdempotent(entries: map<string, string>, encode: string -> string)
    ensures Defaults(Defaults(entries, encode), encode) == Defaults(entries, encode)
  {
  }

  /** Reading one key: `JSON.parse` of the stored text, lowered first when
      `lower` holds; a missing key or text that does not parse throws, which
      is `None`. */
  function Parse(entries: map<string, string>, key: string, lower: bool,
                 decode: string -> Option<Value>): (r: Option<Value>)
    ensures key !in entries ==> r.None?
    ensures key in entries && lower ==> r == decode(Lower(entries[key]))
    ensures key in entries && !lower ==> r == decode(entries[key])
  {
    if key !in entries then None
    else if lower then decode(Lower(entries[key]))
    else decode(entries[key])
  }

  /** The fields after the `try` block of `read`, when the user key is
      present: the keys are parsed in order, and the first one that throws
      leaves it and every later field as it was. */
  function ParseFields(f: Profile, entries: map<string, string>, decode: string -> Option<Value>): (r: Profile)
    ensures r.userName == f.userName || Parse(entries, UserKey, true, decode) == Some(r.userName)
    ensures r.email == f.email || Parse(entries, EmailKey, true, decode) == Some(r.email)
    ensures r.hypergraphName == f.hypergraphName || Parse(entries, NameKey, false, decode) == Some(r.hypergraphName)
    ensures r.hypergraphFile == f.hypergraphFile || Parse(entries, FileKey, false, decode) == Some(r.hypergraphFile)
    ensures Parse(entries, UserKey, true, decode).None? ==> r == f
    ensures r.email != f.email ==> Parse(entries, UserKey, true, decode).Some?
    ensures r.hypergraphName != f.hypergraphName ==>
              Parse(entries, UserKey, true, decode).Some? && Parse(entries, EmailKey, true, decode).Some?
    ensures r.hypergraphFile != f.hypergraphFile ==>
              && Parse(entries, UserKey, true, decode).Some? && Parse(entries, EmailKey, true, decode).Some?
              && Parse(entries, NameKey, false, decode).Some?
  {
    match Parse(entries, UserKey, true, decode)
    case None => f
    case Some(u) =>
      match Parse(entries, EmailKey, true, decode)
      case None => f.(userName := u)
      case Some(e) =>
        match Parse(entries, NameKey, false, decode)
        case None => f.(userName := u, email := e)
        case Some(n) =>
          match Parse(entries, FileKey, false, decode)
          case None => f.(userName := u, email := e, hypergraphName := n)
          case Some(h) => Profile(u, e, n, h)
  }

  /** The fields after `read`: parsed from the store when it holds a user
      name, otherwise kept. */
  function ReadFields(f: Profile, entries: map<string, string>, decode: string -> Option<Value>): Profile
  {
    if UserKey in entries then ParseFields(f, entries, decode) else f
  }

  /** The store after `read`: the defaults are written when it held no user
      name, and again when the user name read is the bare string "guest". */
  function ReadStore(f: Profile, entries: map<string, string>, decode: string -> Option<Value>,
                     encode: string -> string): map<string, string>
  {
    var tried := if UserKey in entries then entries else Defaults(entries, encode);
    if ReadFields(f, entries, decode).userName == Text(Guest) then Defaults(tried, encode) else tried
  }

  /** A store without a user name keeps the fields as they are and ends up
      holding exactly the defaults under the four keys. */
  lemma ReadWithoutUser(f: Profile, entries: map<string, string>, decode: string -> Option<Value>,
                        encode: string -> string)
    requires UserKey !in entries
    ensures ReadFields(f, entries, decode) == f
    ensures ReadStore(f, entries, decode, encode) == Defaults(entries, encode)
  {
    DefaultsIdempotent(entries, encode);
  }

  /** After `read` the store always holds a user name, and it holds the
      defaults whenever it held no user name or the user name read is the
      bare string "guest". */
  lemma ReadLeavesUser(f: Profile, entries: map<string, string>, decode: string -> Option<Value>,
                       encode: string -> string)
    ensures UserKey in ReadStore(f, entries, decode, encode)
    ensures UserKey !in entries || ReadFields(f, entries, decode).userName == Text(Guest) ==>
              var r := ReadStore(f, entries, decode, encode);
              r == Defaults(r, encode)
  {
    var r := ReadStore(f, entries, decode, encode);
    if UserKey !in entries || ReadFields(f, entries, decode).userName == Text(Guest) {
      assert r == Defaults(r, encode);
    }
  }

  /** `read` never touches a key other than the four preferences. */
  lemma ReadKeepsOthers(f: Profile, entries: map<string, string>, decode: string -> Option<Value>,
                        encode: string -> string, k: string)
    requires !Managed(k)
    ensures var r := ReadStore(f, entries, decode, encode);
            (k in r <==> k in entries) && (k in entries ==> r[k] == entries[k])
  {
  }

  /** The store after `save(user, mail, name)`: nothing happens when the user
      name is blank; otherwise the lowered user name and address, and the
      hypergraph name under both the name and the file key. */
  function Saved(entries: map<string, string>, user: string, mail: string, name: string,
                 encode: string -> string): (r: map<string, string>)
    ensures StripSpaces(user) == [] ==> r == entries
    ensures StripSpaces(user) != [] ==>
              && r.Keys == entries.Keys + {UserKey, EmailKey, NameKey, FileKey}
              && r[UserKey] == encode(Lower(user)) && r[EmailKey] == encode(Lower(mail))
              && r[NameKey] == encode(name) && r[FileKey] == encode(name)
    ensures forall k :: k in entries && !Managed(k) ==> k in r && r[k] == entries[k]
  {
    if StripSpaces(user) == [] then entries
    else entries[UserKey := encode(Lower(user))][EmailKey := encode(Lower(mail))]
                [NameKey := encode(name)][FileKey := encode(name)]
  }

  /** Saving the same preferences twice is saving them once. */
  lemma SavedIdempotent(entries: map<string, string>, user: string, mail: string, name: string,
                        encode: string -> string)
    ensures Saved(Saved(entries, user, mail, name, encode), user, mail, name, encode)
            == Saved(entries, user, mail, name, encode)
  {
  }

  /** Save, then read: given a JSON codec that reads back what it wrote (the
      stored text of a lowered name lowers to itself), the fields become the
      saved values, boxed, the hypergraph file is the hypergraph name, and the
      store is left as saved since the user name read is not a bare string. */
  lemma SaveThenRead(f: Profile, entries: map<string, string>, user: string, mail: string, name: string,
                     decode: string -> Option<Value>, encode: string -> string)
    requires StripSpaces(user) != []
    requires decode(Lower(encode(Lower(user)))) == Some(Boxed(Lower(user)))
    requires decode(Lower(encode(Lower(mail)))) == Some(Boxed(Lower(mail)))
    requires decode(encode(name)) == Some(Boxed(name))
    ensures var saved := Saved(entries, user, mail, name, encode);
            && ReadFields(f, saved, decode) == Profile(Boxed(Lower(user)), Boxed(Lower(mail)), Boxed(name), Boxed(name))
            && ReadStore(f, saved, decode, encode) == saved
  {
    var saved := Saved(entries, user, mail, name, encode);
    assert Parse(saved, UserKey, true, decode) == Some(Boxed(Lower(user)));
    assert Parse(saved, EmailKey, true, decode) == Some(Boxed(Lower(mail)));
    assert Parse(saved, NameKey, false, decode) == Some(Boxed(name));
    assert Parse(saved, FileKey, false, decode) == Some(Boxed(name));
  }

  /** The browser's local storage: text stored under text keys. */
  class KeyValueStore {
    var entries: map<string, string>

    constructor(entries: map<string, string>)
      ensures this.entries == entries
    {
      this.entries := entries;
    }
  }

  /** The preferences object: the four fields, read from and saved to a
      store. */
  class LocalStorage {
    var userName: Value
    var email: Value
    var hypergraphName: Value
    var hypergraphFile: Value

    /** The four fields as one value. */
    function State(): Profile
      reads this
    {
      Profile(userName, email, hypergraphName, hypergraphFile)
    }

    /** A guest with no address, editing the default hypergraph. */
    constructor()
      ensures State() == Profile(Text(Guest), Text(DefaultEmail), Text(DefaultName), Text(DefaultFile))
    {
      userName := Text(Guest);
      email := Text(DefaultEmail);
      hypergraphName := Text(DefaultName);
      hypergraphFile := Text(DefaultFile);
    }

    /** `read`: load the fields from the store, or seed the store with the
        defaults; a guest user name resets the store to the defaults. */
    method Read(store: KeyValueStore, decode: string -> Option<Value>, encode: string -> string)
      modifies this, store
      ensures State() == ReadFields(old(State()), old(store.entries), decode)
      ensures store.entries == ReadStore(old(State()), old(store.entries), decode, encode)
    {
      label attempt: {
        if UserKey in store.entries {
          var parsed := Parse(store.entries, UserKey, true, decode);
          if parsed.None? { break attempt; }
          userName := parsed.value;
          parsed := Parse(store.entries, EmailKey, true, decode);
          if parsed.None? { break attempt; }
          email := parsed.value;
          parsed := Parse(store.entries, NameKey, false, decode);
          if parsed.None? { break attempt; }
          hypergraphName := parsed.value;
          parsed := Parse(store.entries, FileKey, false, decode);
          if parsed.None? { break attempt; }
          hypergraphFile := parsed.value;
        } else {
          store.entries := Defaults(store.entries, encode);
        }
      }
      if userName == Text(Guest) {
        store.entries := Defaults(store.entries, encode);
      }
    }

    /** `save(user, mail, name)`: store the preferences unless the user name
        is blank. The fields themselves are not changed. */
    method Save(store: KeyValueStore, user: string, mail: string, name: string, encode: string -> string)
      modifies store
      ensures store.entries == Saved(old(store.entries), user, mail, name, encode)
    {
      if StripSpaces(user) != [] {
        store.entries := store.entries[UserKey := encode(Lower(user))];
        store.entries := store.entries[EmailKey := encode(Lower(mail))];
        store.entries := store.entries[NameKey := encode(name)];
        store.entries := store.entries[FileKey := encode(name)];
      }
    }
  }
}

/**
 The user's cancel flag as the program reads it: each read of `hmi_instance.cancelled`
 is one poll, numbered in the order the run performs them. The flag is only ever
 raised during a run, so once a poll sees it set every later poll does too.
 */
module Cancellation {

  datatype Cancel = Never | From(poll: nat)

  predicate Cancelled(c: Cancel, poll: nat) {
    c.From? && poll >= c.poll
  }

  /** Some poll before number `polls` found the flag set: the last of them did, since the flag stays set. */
  predicate SawFlag(c: Cancel, polls: nat) {
    c.From? && polls > c.poll
  }
}

/**
 Zip archives as the sequences of their entry names (file_handler.py 412-431).
 Several archive files are tracked at once, by path, because with
 `separate_update_files` off the main archive and the updates archive are the same file.
 */
module Archive {
  import opened Text

  type Store = map<string, seq<string>>

  /** The entries of an archive file; a file never created has none. */
  function Entries(store: Store, zip: string): seq<string> {
    if zip in store then store[zip] else []
  }

  /** The placeholder directory entry a fresh archive gets unless updates go to their own file. */
  const UpgradesFolder := "Upgrades/"

  /** `create_zip_file`: mode 'w' truncates; `Upgrades/` is seeded unless updates are separated. */
  function Create(store: Store, zip: string, separate: bool): (r: Store)
    ensures separate ==> Entries(r, zip) == []
    ensures !separate ==> Entries(r, zip) == [UpgradesFolder]
    ensures forall z :: z != zip ==> Entries(r, z) == Entries(store, z)
  {
    store[zip := if separate then [] else [UpgradesFolder]]
  }

  /** The archive name `add_zip_file` gives a source file: `<folder>/<basename>`. */
  function ArcName(folder: string, source: string): string {
    folder + "/" + Basename(source)
  }

  /**
   The names `add_zip_file` writes: one per source whose archive name was absent
   when the archive was opened (`existing_files` is read once, before the loop).
   */
  function NewNames(existing: seq<string>, sources: seq<string>, folder: string): seq<string> {
    if |sources| == 0 then []
    else
      var n := ArcName(folder, sources[0]);
      (if n in existing then [] else [n]) + NewNames(existing, sources[1..], folder)
  }

  /** The written names are exactly the archive names of the sources that were absent, at most one per source. */
  lemma {:induction false} NewNamesSpec(existing: seq<string>, sources: seq<string>, folder: string)
    ensures |NewNames(existing, sources, folder)| <= |sources|
    ensures forall n :: n in NewNames(existing, sources, folder) ==> n !in existing
    ensures forall i :: 0 <= i < |sources| && ArcName(folder, sources[i]) !in existing ==>
              ArcName(folder, sources[i]) in NewNames(existing, sources, folder)
    ensures forall n :: n in NewNames(existing, sources, folder) ==>
              exists i :: 0 <= i < |sources| && n == ArcName(folder, sources[i])
  {
    if |sources| > 0 {
      var rest := NewNames(existing, sources[1..], folder);
      NewNamesSpec(existing, sources[1..], folder);
      forall m | m in rest ensures exists i :: 0 <= i < |sources| && m == ArcName(folder, sources[i]) {
        var j :| 0 <= j < |sources[1..]| && m == ArcName(folder, sources[1..][j]);
        assert m == ArcName(folder, sources[j + 1]);
      }
      forall i | 0 <= i < |sources| && ArcName(folder, sources[i]) !in existing
        ensures ArcName(folder, sources[i]) in NewNames(existing, sources, folder)
      {
        if i > 0 {
          assert sources[1..][i - 1] == sources[i];
        }
      }
    }
  }

  /** `add_zip_file`: appends the absent names; existing entries and other archives are untouched. */
  function AddFiles(store: Store, zip: string, sources: seq<string>, folder: string): Store {
    var before := Entries(store, zip);
    store[zip := before + NewNames(before, sources, folder)]
  }

  /** After `add_zip_file` the archive holds its earlier entries, then the archive name of every source and nothing else; other archives are untouched. */
  lemma AddFilesSpec(store: Store, zip: string, sources: seq<string>, folder: string)
    ensures Entries(store, zip) <= Entries(AddFiles(store, zip, sources, folder), zip)
    ensures forall i :: 0 <= i < |sources| ==> ArcName(folder, sources[i]) in Entries(AddFiles(store, zip, sources, folder), zip)
    ensures forall n :: n in Entries(AddFiles(store, zip, sources, folder), zip) && n !in Entries(store, zip) ==>
              exists i :: 0 <= i < |sources| && n == ArcName(folder, sources[i])
    ensures forall z :: z != zip ==> Entries(AddFiles(store, zip, sources, folder), z) == Entries(store, z)
  {
    NewNamesSpec(Entries(store, zip), sources, folder);
  }

  lemma {:induction false} NewNamesNone(existing: seq<string>, sources: seq<string>, folder: string)
    requires forall i :: 0 <= i < |sources| ==> ArcName(folder, sources[i]) in existing
    ensures NewNames(existing, sources, folder) == []
  {
    if |sources| > 0 {
      NewNamesNone(existing, sources[1..], folder);
    }
  }

  /** Adding the same files again changes nothing. */
  lemma AddFilesIdempotent(store: Store, zip: string, sources: seq<string>, folder: string)
    ensures AddFiles(AddFiles(store, zip, sources, folder), zip, sources, folder) == AddFiles(store, zip, sources, folder)
  {
    var once := AddFiles(store, zip, sources, folder);
    var e := Entries(once, zip);
    AddFilesSpec(store, zip, sources, folder);
    NewNamesNone(e, sources, folder);
    assert e + [] == e;
    assert once[zip := e] == once;
  }

  /** Adding one file twice to an archive that lacks it leaves exactly one entry of that name. */
  lemma AddTwiceGivesOneEntry(store: Store, zip: string, source: string, folder: string)
    requires ArcName(folder, source) !in Entries(store, zip)
    ensures var twice := AddFiles(AddFiles(store, zip, [source], folder), zip, [source], folder);
            multiset(Entries(twice, zip))[ArcName(folder, source)] == 1
  {
    AddFilesIdempotent(store, zip, [source], folder);
    var n := ArcName(folder, source);
    var e := Entries(store, zip);
    assert NewNames(e, [source], folder) == [n];
    assert Entries(AddFiles(store, zip, [source], folder), zip) == e + [n];
    assert multiset(e)[n] == 0;
  }

  /** `ZipFile.write` of project files: appended in order, with no check for names already present. */
  function Append(store: Store, zip: string, names: seq<string>): (r: Store)
    ensures Entries(r, zip) == Entries(store, zip) + names
    ensures forall z :: z != zip ==> Entries(r, z) == Entries(store, z)
  {
    store[zip := Entries(store, zip) + names]
  }
}

/**
 `project_file_handling` (file_handler.py 56-90): a top-down `os.walk` of the project
 folder that prunes `Binaries`, `Diagnosis` and `Temp` when their include flag is
 off, polls the cancel flag before every directory and every file, and writes each
 remaining file under its path relative to the project folder.
 */
module Walk {
  import opened Files
  import opened Cancellation

  /** The include flags the walk is given; `dotFolders` (`include_dot`) is never consulted. */
  datatype Include = Include(binaries: bool, diagnosis: bool, temp: bool, dotFolders: bool)

  /** What one walk wrote, how many polls it made, and whether it saw the cancel flag. */
  datatype Walked = Walked(written: seq<string>, polls: nat, cancelled: bool)

  /** The directory names the walk leaves out for the given flags. */
  predicate Excluded(name: string, inc: Include) {
    || (name == "Binaries" && !inc.binaries)
    || (name == "Diagnosis" && !inc.diagnosis)
    || (name == "Temp" && !inc.temp)
  }

  /** The subdirectories of a directory, in listing order. */
  function Subdirs(nodes: seq<Node>): (r: seq<Node>)
    ensures forall x :: x in r ==> x in nodes && x.Dir?
    ensures forall x :: x in nodes && x.Dir? ==> x in r
  {
    if |nodes| == 0 then []
    else (if nodes[0].Dir? then [nodes[0]] else []) + Subdirs(nodes[1..])
  }

  /** The names of the non-directory entries, in listing order. */
  function FileNames(nodes: seq<Node>): (r: seq<string>)
    ensures |r| <= |nodes|
  {
    if |nodes| == 0 then []
    else (if nodes[0].File? then [nodes[0].name] else []) + FileNames(nodes[1..])
  }

  /** `list.remove(name)`: drops the first entry of that name. */
  function RemoveFirst(dirs: seq<Node>, name: string): (r: seq<Node>)
    ensures forall x :: x in r ==> x in dirs
    ensures forall x :: x in dirs && x.name != name ==> x in r
  {
    if |dirs| == 0 then []
    else if dirs[0].name == name then dirs[1..]
    else [dirs[0]] + RemoveFirst(dirs[1..], name)
  }

  /** Lines 67-78: each of the three names is removed when its flag is off and it is present. */
  function Prune(dirs: seq<Node>, inc: Include): (r: seq<Node>)
    ensures forall x :: x in r ==> x in dirs
  {
    var a := if !inc.binaries then RemoveFirst(dirs, "Binaries") else dirs;
    var b := if !inc.diagnosis then RemoveFirst(a, "Diagnosis") else a;
    if !inc.temp then RemoveFirst(b, "Temp") else b
  }

  ghost predicate DistinctNames(dirs: seq<Node>) {
    forall i, j :: 0 <= i < j < |dirs| ==> dirs[i].name != dirs[j].name
  }

  lemma RemoveFirstDistinct(dirs: seq<Node>, name: string)
    requires DistinctNames(dirs)
    ensures DistinctNames(RemoveFirst(dirs, name))
    ensures forall x :: x in RemoveFirst(dirs, name) <==> x in dirs && x.name != name
  {
    if |dirs| > 0 {
      assert DistinctNames(dirs[1..]);
      RemoveFirstDistinct(dirs[1..], name);
      if dirs[0].name == name {
        forall x | x in dirs[1..] ensures x.name != name {
          var j :| 0 <= j < |dirs[1..]| && dirs[1..][j] == x;
          assert dirs[j + 1] == x;
        }
      } else {
        var r := [dirs[0]] + RemoveFirst(dirs[1..], name);
        forall i, j | 0 <= i < j < |r| ensures r[i].name != r[j].name {
          if i == 0 {
            assert r[j] in dirs[1..];
            var k :| 0 <= k < |dirs[1..]| && dirs[1..][k] == r[j];
            assert dirs[k + 1] == r[j];
          }
        }
      }
    }
  }

  /** Among siblings with distinct names, a directory is pruned exactly when its name is excluded. */
  lemma PruneExactly(dirs: seq<Node>, inc: Include)
    requires DistinctNames(dirs)
    ensures forall x :: x in Prune(dirs, inc) <==> x in dirs && !Excluded(x.name, inc)
  {
    RemoveFirstDistinct(dirs, "Binaries");
    var a := if !inc.binaries then RemoveFirst(dirs, "Binaries") else dirs;
    RemoveFirstDistinct(a, "Diagnosis");
    var b := if !inc.diagnosis then RemoveFirst(a, "Diagnosis") else a;
    RemoveFirstDistinct(b, "Temp");
  }

  /** Archive names of the files of one directory, `rel` being its path relative to the project folder. */
  function Prefixed(rel: string, names: seq<string>): (r: seq<string>)
    ensures |r| == |names|
    ensures forall i :: 0 <= i < |names| ==> r[i] == rel + names[i]
  {
    if |names| == 0 then [] else [rel + names[0]] + Prefixed(rel, names[1..])
  }

  /** Every archive name the walk would write if never cancelled, in walk order. */
  function Listing(d: Node, rel: string, inc: Include): seq<string>
    requires d.Dir?
    decreases d, 1
  {
    Prefixed(rel, FileNames(d.children)) + ListingAll(d, Prune(Subdirs(d.children), inc), rel, inc)
  }

  function ListingAll(parent: Node, dirs: seq<Node>, rel: string, inc: Include): seq<string>
    requires parent.Dir?
    requires forall x :: x in dirs ==> x in parent.children && x.Dir?
    decreases parent, 0, |dirs|
  {
    if |dirs| == 0 then []
    else Listing(dirs[0], rel + dirs[0].name + "/", inc) + ListingAll(parent, dirs[1..], rel, inc)
  }

  /**
   One poll of the walk and what it is for: entering a directory (line 63) or writing
   a file (line 80).
   */
  datatype Event = Enter | Write(name: string)

  /** The archive names written by a sequence of polls that all found the flag unset. */
  function Written(ev: seq<Event>): seq<string> {
    if |ev| == 0 then []
    else (if ev[0].Write? then [ev[0].name] else []) + Written(ev[1..])
  }

  lemma {:induction false} WrittenConcat(a: seq<Event>, b: seq<Event>)
    ensures Written(a + b) == Written(a) + Written(b)
    decreases |a|
  {
    if |a| > 0 {
      assert (a + b)[0] == a[0];
      assert (a + b)[1..] == a[1..] + b;
      WrittenConcat(a[1..], b);
    } else {
      assert a + b == b;
    }
  }

  /** The polls of an uncancelled pass over the files of one directory. */
  function FileEvents(rel: string, names: seq<string>): (r: seq<Event>)
    ensures |r| == |names|
  {
    if |names| == 0 then [] else [Write(rel + names[0])] + FileEvents(rel, names[1..])
  }

  /** The polls of an uncancelled walk of `d`, in order: entering it, each of its files, then each remaining subdirectory. */
  function Events(d: Node, rel: string, inc: Include): seq<Event>
    requires d.Dir?
    decreases d, 1
  {
    [Enter] + FileEvents(rel, FileNames(d.children)) + EventsAll(d, Prune(Subdirs(d.children), inc), rel, inc)
  }

  function EventsAll(parent: Node, dirs: seq<Node>, rel: string, inc: Include): seq<Event>
    requires parent.Dir?
    requires forall x :: x in dirs ==> x in parent.children && x.Dir?
    decreases parent, 0, |dirs|
  {
    if |dirs| == 0 then []
    else Events(dirs[0], rel + dirs[0].name + "/", inc) + EventsAll(parent, dirs[1..], rel, inc)
  }

  /** How many of `n` polls, numbered from `polls` on, find the flag unset before one finds it set. */
  function Clear(cancel: Cancel, polls: nat, n: nat): (r: nat)
    ensures r <= n
    ensures forall j :: polls <= j < polls + r ==> !Cancelled(cancel, j)
    ensures r < n ==> Cancelled(cancel, polls + r)
  {
    if cancel.Never? || cancel.poll >= polls + n then n
    else if cancel.poll <= polls then 0
    else cancel.poll - polls
  }

  /**
   The walk made the polls `ev` from poll number `polls` on and stopped at the first one
   that found the flag set: it wrote exactly the files of the polls before that one, and
   is cancelled exactly when some poll of `ev` found the flag.
   */
  predicate Follows(w: Walked, ev: seq<Event>, cancel: Cancel, polls: nat) {
    var c := Clear(cancel, polls, |ev|);
    w == Walked(Written(ev[..c]), polls + c + (if c < |ev| then 1 else 0), c < |ev|)
  }

  /** Two pieces of a walk run one after the other follow the concatenation of their polls. */
  lemma FollowsConcat(a: Walked, b: Walked, ea: seq<Event>, eb: seq<Event>, cancel: Cancel, polls: nat)
    requires Follows(a, ea, cancel, polls)
    requires !a.cancelled ==> Follows(b, eb, cancel, a.polls)
    ensures Follows(if a.cancelled then a else Walked(a.written + b.written, b.polls, b.cancelled), ea + eb, cancel, polls)
  {
    var ca := Clear(cancel, polls, |ea|);
    if ca < |ea| {
      assert Clear(cancel, polls, |ea| + |eb|) == ca;
      assert (ea + eb)[..ca] == ea[..ca];
    } else {
      var cb := Clear(cancel, polls + |ea|, |eb|);
      assert Clear(cancel, polls, |ea| + |eb|) == |ea| + cb;
      assert (ea + eb)[..|ea| + cb] == ea + eb[..cb];
      assert ea[..ca] == ea;
      WrittenConcat(ea, eb[..cb]);
    }
  }

  /** The files of one directory (lines 79-87), each write preceded by a poll. */
  function WalkFiles(names: seq<string>, rel: string, cancel: Cancel, polls: nat): (r: Walked)
    ensures Follows(r, FileEvents(rel, names), cancel, polls)
    ensures r.written <= Prefixed(rel, names)
    ensures !r.cancelled ==> r.written == Prefixed(rel, names)
    ensures r.polls >= polls
    ensures cancel.Never? ==> !r.cancelled
    decreases |names|
  {
    if |names| == 0 then Walked([], polls, false)
    else if Cancelled(cancel, polls) then Walked([], polls + 1, true)
    else
      var rest := WalkFiles(names[1..], rel, cancel, polls + 1);
      var first := Walked([rel + names[0]], polls + 1, false);
      assert Follows(first, [Write(rel + names[0])], cancel, polls);
      FollowsConcat(first, rest, [Write(rel + names[0])], FileEvents(rel, names[1..]), cancel, polls);
      Walked([rel + names[0]] + rest.written, rest.polls, rest.cancelled)
  }

  /** One step of `os.walk`: poll (line 63), prune, write the files, then descend in listing order. */
  function WalkDir(d: Node, rel: string, inc: Include, cancel: Cancel, polls: nat): (r: Walked)
    requires d.Dir?
    decreases d, 1
  {
    if Cancelled(cancel, polls) then Walked([], polls + 1, true)
    else
      var files := WalkFiles(FileNames(d.children), rel, cancel, polls + 1);
      if files.cancelled then files
      else
        var sub := WalkAll(d, Prune(Subdirs(d.children), inc), rel, inc, cancel, files.polls);
        Walked(files.written + sub.written, sub.polls, sub.cancelled)
  }

  function WalkAll(parent: Node, dirs: seq<Node>, rel: string, inc: Include, cancel: Cancel, polls: nat): (r: Walked)
    requires parent.Dir?
    requires forall x :: x in dirs ==> x in parent.children && x.Dir?
    decreases parent, 0, |dirs|
  {
    if |dirs| == 0 then Walked([], polls, false)
    else
      var first := WalkDir(dirs[0], rel + dirs[0].name + "/", inc, cancel, polls);
      if first.cancelled then first
      else
        var rest := WalkAll(parent, dirs[1..], rel, inc, cancel, first.polls);
        Walked(first.written + rest.written, rest.polls, rest.cancelled)
  }

  /**
   What the walk writes is always the beginning of the full listing: a cancelled walk
   keeps what it wrote before the flag was seen, and an uncancelled walk writes it all.
   */
  lemma {:induction false} WalkDirIsPrefix(d: Node, rel: string, inc: Include, cancel: Cancel, polls: nat)
    requires d.Dir?
    ensures WalkDir(d, rel, inc, cancel, polls).written <= Listing(d, rel, inc)
    ensures !WalkDir(d, rel, inc, cancel, polls).cancelled ==> WalkDir(d, rel, inc, cancel, polls).written == Listing(d, rel, inc)
    ensures cancel.Never? ==> !WalkDir(d, rel, inc, cancel, polls).cancelled
    decreases d, 1
  {
    if !Cancelled(cancel, polls) {
      var files := WalkFiles(FileNames(d.children), rel, cancel, polls + 1);
      if !files.cancelled {
        WalkAllIsPrefix(d, Prune(Subdirs(d.children), inc), rel, inc, cancel, files.polls);
      }
    }
  }

  lemma {:induction false} WalkAllIsPrefix(parent: Node, dirs: seq<Node>, rel: string, inc: Include, cancel: Cancel, polls: nat)
    requires parent.Dir?
    requires forall x :: x in dirs ==> x in parent.children && x.Dir?
    ensures WalkAll(parent, dirs, rel, inc, cancel, polls).written <= ListingAll(parent, dirs, rel, inc)
    ensures !WalkAll(parent, dirs, rel, inc, cancel, polls).cancelled ==>
              WalkAll(parent, dirs, rel, inc, cancel, polls).written == ListingAll(parent, dirs, rel, inc)
    ensures cancel.Never? ==> !WalkAll(parent, dirs, rel, inc, cancel, polls).cancelled
    decreases parent, 0, |dirs|
  {
    if |dirs| > 0 {
      var first := WalkDir(dirs[0], rel + dirs[0].name + "/", inc, cancel, polls);
      WalkDirIsPrefix(dirs[0], rel + dirs[0].name + "/", inc, cancel, polls);
      if !first.cancelled {
        WalkAllIsPrefix(parent, dirs[1..], rel, inc, cancel, first.polls);
      }
    }
  }

  /** The `include_dot` flag changes nothing: dot-directories are walked either way. */
  lemma {:induction false} WalkDirIgnoresDotFlag(d: Node, rel: string, inc: Include, cancel: Cancel, polls: nat, dot: bool)
    requires d.Dir?
    ensures WalkDir(d, rel, inc, cancel, polls) == WalkDir(d, rel, inc.(dotFolders := dot), cancel, polls)
    decreases d, 1
  {
    var inc' := inc.(dotFolders := dot);
    assert Prune(Subdirs(d.children), inc) == Prune(Subdirs(d.children), inc');
    if !Cancelled(cancel, polls) {
      var files := WalkFiles(FileNames(d.children), rel, cancel, polls + 1);
      if !files.cancelled {
        WalkAllIgnoresDotFlag(d, Prune(Subdirs(d.children), inc), rel, inc, cancel, files.polls, dot);
      }
    }
  }

  lemma {:induction false} WalkAllIgnoresDotFlag(parent: Node, dirs: seq<Node>, rel: string, inc: Include, cancel: Cancel, polls: nat, dot: bool)
    requires parent.Dir?
    requires forall x :: x in dirs ==> x in parent.children && x.Dir?
    ensures WalkAll(parent, dirs, rel, inc, cancel, polls) == WalkAll(parent, dirs, rel, inc.(dotFolders := dot), cancel, polls)
    decreases parent, 0, |dirs|
  {
    if |dirs| > 0 {
      assert dirs[0] in parent.children;
      WalkDirIgnoresDotFlag(dirs[0], rel + dirs[0].name + "/", inc, cancel, polls, dot);
      var first := WalkDir(dirs[0], rel + dirs[0].name + "/", inc, cancel, polls);
      if !first.cancelled {
        WalkAllIgnoresDotFlag(parent, dirs[1..], rel, inc, cancel, first.polls, dot);
      }
    }
  }

  /**
   The walk polls once per event of the uncancelled walk, stops at the first poll that
   finds the flag set, and has then written exactly the files of the earlier polls.
   */
  lemma {:induction false} WalkDirFollows(d: Node, rel: string, inc: Include, cancel: Cancel, polls: nat)
    requires d.Dir?
    ensures Follows(WalkDir(d, rel, inc, cancel, polls), Events(d, rel, inc), cancel, polls)
    decreases d, 1
  {
    var ev := Events(d, rel, inc);
    var fe := FileEvents(rel, FileNames(d.children));
    var dirs := Prune(Subdirs(d.children), inc);
    if Cancelled(cancel, polls) {
      assert Clear(cancel, polls, |ev|) == 0;
    } else {
      var enter := Walked([], polls + 1, false);
      assert Follows(enter, [Enter], cancel, polls);
      var files := WalkFiles(FileNames(d.children), rel, cancel, polls + 1);
      FollowsConcat(enter, files, [Enter], fe, cancel, polls);
      assert [] + files.written == files.written;
      var head := Walked(files.written, files.polls, files.cancelled);
      assert head == files;
      if files.cancelled {
        assert ev == ([Enter] + fe) + EventsAll(d, dirs, rel, inc);
        FollowsConcat(head, head, [Enter] + fe, EventsAll(d, dirs, rel, inc), cancel, polls);
      } else {
        var sub := WalkAll(d, dirs, rel, inc, cancel, files.polls);
        WalkAllFollows(d, dirs, rel, inc, cancel, files.polls);
        FollowsConcat(head, sub, [Enter] + fe, EventsAll(d, dirs, rel, inc), cancel, polls);
      }
    }
  }

  lemma {:induction false} WalkAllFollows(parent: Node, dirs: seq<Node>, rel: string, inc: Include, cancel: Cancel, polls: nat)
    requires parent.Dir?
    requires forall x :: x in dirs ==> x in parent.children && x.Dir?
    ensures Follows(WalkAll(parent, dirs, rel, inc, cancel, polls), EventsAll(parent, dirs, rel, inc), cancel, polls)
    decreases parent, 0, |dirs|
  {
    if |dirs| > 0 {
      assert dirs[0] in parent.children;
      var first := WalkDir(dirs[0], rel + dirs[0].name + "/", inc, cancel, polls);
      WalkDirFollows(dirs[0], rel + dirs[0].name + "/", inc, cancel, polls);
      var rest := WalkAll(parent, dirs[1..], rel, inc, cancel, first.polls);
      if !first.cancelled {
        WalkAllFollows(parent, dirs[1..], rel, inc, cancel, first.polls);
      }
      FollowsConcat(first, rest, Events(dirs[0], rel + dirs[0].name + "/", inc), EventsAll(parent, dirs[1..], rel, inc), cancel, polls);
    }
  }

  /** The files an uncancelled walk writes are those of the full listing. */
  lemma {:induction false} ListingIsWritten(d: Node, rel: string, inc: Include)
    requires d.Dir?
    ensures Written(Events(d, rel, inc)) == Listing(d, rel, inc)
    decreases d, 1
  {
    var fe := FileEvents(rel, FileNames(d.children));
    var dirs := Prune(Subdirs(d.children), inc);
    var sub := EventsAll(d, dirs, rel, inc);
    assert Events(d, rel, inc) == [Enter] + (fe + sub);
    assert Written([Enter] + (fe + sub)) == Written(fe + sub) by {
      assert ([Enter] + (fe + sub))[1..] == fe + sub;
    }
    WrittenConcat(fe, sub);
    FileEventsWritten(rel, FileNames(d.children));
    ListingAllIsWritten(d, dirs, rel, inc);
  }

  lemma {:induction false} ListingAllIsWritten(parent: Node, dirs: seq<Node>, rel: string, inc: Include)
    requires parent.Dir?
    requires forall x :: x in dirs ==> x in parent.children && x.Dir?
    ensures Written(EventsAll(parent, dirs, rel, inc)) == ListingAll(parent, dirs, rel, inc)
    decreases parent, 0, |dirs|
  {
    if |dirs| > 0 {
      assert dirs[0] in parent.children;
      ListingIsWritten(dirs[0], rel + dirs[0].name + "/", inc);
      ListingAllIsWritten(parent, dirs[1..], rel, inc);
      WrittenConcat(Events(dirs[0], rel + dirs[0].name + "/", inc), EventsAll(parent, dirs[1..], rel, inc));
    }
  }

  lemma {:induction false} FileEventsWritten(rel: string, names: seq<string>)
    ensures Written(FileEvents(rel, names)) == Prefixed(rel, names)
    decreases |names|
  {
    if |names| > 0 {
      FileEventsWritten(rel, names[1..]);
      WrittenConcat([Write(rel + names[0])], FileEvents(rel, names[1..]));
    }
  }

  /** The walk of the project folder: a path that is not a directory yields nothing (`os.walk` is silent). */
  function WalkProject(fs: Fs, top: string, inc: Include, cancel: Cancel, polls: nat): (r: Walked)
    ensures r.polls >= polls
    ensures !IsDir(fs, top) ==> r == Walked([], polls, false)
    ensures IsDir(fs, top) ==> Follows(r, Events(Lookup(fs, top).value, "", inc), cancel, polls)
    ensures IsDir(fs, top) ==> r.written <= Listing(Lookup(fs, top).value, "", inc)
    ensures IsDir(fs, top) && !r.cancelled ==> r.written == Listing(Lookup(fs, top).value, "", inc)
    ensures cancel.Never? ==> !r.cancelled
  {
    match Lookup(fs, top)
    case Some(Dir(name, children)) =>
      WalkDirIsPrefix(Dir(name, children), "", inc, cancel, polls);
      WalkPolls(Dir(name, children), "", inc, cancel, polls);
      WalkDirFollows(Dir(name, children), "", inc, cancel, polls);
      WalkDir(Dir(name, children), "", inc, cancel, polls)
    case _ => Walked([], polls, false)
  }

  /** Polls only move forward. */
  lemma {:induction false} WalkPolls(d: Node, rel: string, inc: Include, cancel: Cancel, polls: nat)
    requires d.Dir?
    ensures WalkDir(d, rel, inc, cancel, polls).polls >= polls
    decreases d, 1
  {
    if !Cancelled(cancel, polls) {
      var files := WalkFiles(FileNames(d.children), rel, cancel, polls + 1);
      if !files.cancelled {
        WalkAllPolls(d, Prune(Subdirs(d.children), inc), rel, inc, cancel, files.polls);
      }
    }
  }

  lemma {:induction false} WalkAllPolls(parent: Node, dirs: seq<Node>, rel: string, inc: Include, cancel: Cancel, polls: nat)
    requires parent.Dir?
    requires forall x :: x in dirs ==> x in parent.children && x.Dir?
    ensures WalkAll(parent, dirs, rel, inc, cancel, polls).polls >= polls
    decreases parent, 0, |dirs|
  {
    if |dirs| > 0 {
      assert dirs[0] in parent.children;
      WalkPolls(dirs[0], rel + dirs[0].name + "/", inc, cancel, polls);
      var first := WalkDir(dirs[0], rel + dirs[0].name + "/", inc, cancel, polls);
      if !first.cancelled {
        WalkAllPolls(parent, dirs[1..], rel, inc, cancel, first.polls);
      }
    }
  }
}

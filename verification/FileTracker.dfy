/** Content fingerprints of local files (sourcetrack/filetracker.go,
    internal/sourcekind/sourcekind.go). */
module FileTracker {
  type Disk = map<string, string>

  const SCHEMES := ["http://", "https://", "environment:", "env:", "s3://", "ssm:", "gs://", "azure://",
                    "ibmcos://", "git:", "consul://", "vault://", "vault:", "file://"]

  /** strings.ToLower on the characters whose lower case is ASCII. */
  function Lower(c: char): char {
    if 'A' <= c <= 'Z' then c + 32 as char
    else if c as int == 0x130 then 'i'
    else if c as int == 0x212A then 'k'
    else c
  }

  predicate StartsFolded(prefix: string, s: string) {
    |prefix| <= |s| && forall i :: 0 <= i < |prefix| ==> Lower(s[i]) == prefix[i]
  }

  predicate NonFile(source: string) {
    exists i :: 0 <= i < |SCHEMES| && StartsFolded(SCHEMES[i], source)
  }

  method IsNonFileSource(source: string) returns (r: bool)
    ensures r == NonFile(source)
  {
    for i := 0 to |SCHEMES|
      invariant forall j :: 0 <= j < i ==> !StartsFolded(SCHEMES[j], source)
    {
      if StartsFolded(SCHEMES[i], source) {
        return true;
      }
    }
    return false;
  }

  /** A FileSnapshot: the recorded hash of each tracked file, and the sources
      that have no fingerprint. */
  datatype Tracking = Tracking(files: map<string, string>, untrackable: set<string>) {
    predicate Trackable(path: string) { !NonFile(path) && path !in untrackable }

    function Track(hash: string -> string, disk: Disk, path: string): Tracking {
      if NonFile(path) then this.(untrackable := untrackable + {path})
      else if path !in disk then this
      else Tracking(files[path := hash(disk[path])], untrackable - {path})
    }

    /** What HasChanged answers. */
    predicate Changed(hash: string -> string, disk: Disk, path: string) {
      && path !in untrackable && !NonFile(path)
      && (path !in files || (path in disk && hash(disk[path]) != files[path]))
    }

    /** What HasChanged records: a tracked file that cannot be read any more, or
        a source that is no file, is untrackable from then on. */
    function Looked(disk: Disk, path: string): Tracking {
      if path in untrackable then this
      else if NonFile(path) then this.(untrackable := untrackable + {path})
      else if path !in files || path in disk then this
      else Tracking(files - {path}, untrackable + {path})
    }
  }

  class FileTracker {
    const hash: string -> string
    var files: map<string, string>
    var untrackable: set<string>

    constructor (hash: string -> string)
      ensures this.hash == hash && Snapshot() == Tracking(map[], {})
    {
      this.hash := hash;
      files, untrackable := map[], {};
    }

    function Snapshot(): Tracking reads this { Tracking(files, untrackable) }

    method Restore(s: Tracking)
      modifies this
      ensures Snapshot() == s
    {
      files, untrackable := s.files, s.untrackable;
    }

    method IsTrackable(path: string) returns (r: bool)
      ensures r == Snapshot().Trackable(path)
    {
      var other := IsNonFileSource(path);
      return !other && path !in untrackable;
    }

    method Track(disk: Disk, path: string) returns (ok: bool)
      modifies this
      ensures Snapshot() == old(Snapshot()).Track(hash, disk, path)
      ensures ok == (NonFile(path) || path in disk)
    {
      var other := IsNonFileSource(path);
      if other {
        untrackable := untrackable + {path};
        return true;
      }
      if path !in disk {
        return false;
      }
      files := files[path := hash(disk[path])];
      untrackable := untrackable - {path};
      return true;
    }

    method HasChanged(disk: Disk, path: string) returns (r: bool)
      modifies this
      ensures r == old(Snapshot()).Changed(hash, disk, path)
      ensures Snapshot() == old(Snapshot()).Looked(disk, path)
    {
      if path in untrackable {
        return false;
      }
      var other := IsNonFileSource(path);
      if other {
        untrackable := untrackable + {path};
        return false;
      }
      if path !in files {
        return true;
      }
      if path !in disk {
        untrackable := untrackable + {path};
        files := files - {path};
        return false;
      }
      return hash(disk[path]) != files[path];
    }
  }

  /** Different contents have different hashes. */
  ghost predicate CollisionFree(hash: string -> string) {
    forall a, b :: hash(a) == hash(b) ==> a == b
  }

  /** Classified once, a source reads as unchanged until it is tracked again,
      even if it comes back with other content. */
  lemma UntrackableStaysQuiet(t: Tracking, hash: string -> string, before: Disk, after: Disk, path: string)
    requires !NonFile(path) && path in t.files && path !in before && path in after
    ensures var t' := t.Looked(before, path);
            !t'.Trackable(path) && !t'.Changed(hash, after, path) &&
            t'.Track(hash, after, path).Trackable(path) && !t'.Track(hash, after, path).Changed(hash, after, path)
  {
  }

  /** After a file has been tracked, it reads as changed exactly when its
      content differs; a touched or rewritten file with equal content does not. */
  lemma ChangedIff(t: Tracking, hash: string -> string, before: Disk, after: Disk, path: string)
    requires CollisionFree(hash) && !NonFile(path) && path in before && path in after
    ensures t.Track(hash, before, path).Changed(hash, after, path) <==> before[path] != after[path]
  {
    if hash(before[path]) == hash(after[path]) {
      assert before[path] == after[path];
    }
  }
}

/** The admin endpoints that list and fetch the database backups. The glob of
    the backup directory and the file test are inputs. */
module Backups {
  import opened Results
  import opened Text
  import opened Records
  import opened Users
  import opened Lists
  import Upload

  /** The names `read_all_backups` lists: the last '/'-separated piece of each globbed path. */
  function BackupNames(paths: seq<string>): (names: seq<string>)
    ensures |names| == |paths|
    ensures forall i :: 0 <= i < |names| ==> names[i] == Upload.FileName(paths[i]) && '/' !in names[i]
  {
    Map(paths, (p: string) => Upload.FileName(p))
  }

  /** Each listed name ends its path, and is the whole path when the path has no '/'. */
  lemma BackupNamesAreSuffixes(paths: seq<string>, i: int)
    requires 0 <= i < |paths|
    ensures exists k :: 0 <= k <= |paths[i]| && paths[i][k..] == BackupNames(paths)[i]
    ensures '/' !in paths[i] ==> BackupNames(paths)[i] == paths[i]
  {
    LastPieceIsSuffix(paths[i], '/');
  }

  /** `read_all_backups`: 401 for a non-admin; otherwise the loop appending
      `parts[count - 1]` of each globbed path. */
  method ReadAllBackups(current: User, globbed: seq<string>) returns (r: Result<seq<string>>)
    ensures !HasRole(current, "admin") ==> r == Err(Http(UNAUTHORIZED_401))
    ensures HasRole(current, "admin") ==> r == Ok(BackupNames(globbed))
  {
    if !HasRole(current, "admin") {
      return Err(Http(UNAUTHORIZED_401));
    }
    var ret: seq<string> := [];
    for i := 0 to |globbed|
      invariant |ret| == i
      invariant forall k :: 0 <= k < i ==> ret[k] == Upload.FileName(globbed[k])
    {
      var parts := Split(globbed[i], '/');
      var count := |parts|;
      assert parts[count - 1] == Upload.FileName(globbed[i]);
      ret := ret + [parts[count - 1]];
    }
    assert ret == BackupNames(globbed);
    r := Ok(ret);
  }

  /** `read_backup`: 401 for a non-admin before the file is looked at, then
      404 unless `isFile` holds for it; the answer is the path of the file
      served, relative to the base directory. */
  function ReadBackup(current: User, expectedFilename: string, isFile: string -> bool): (r: Result<string>)
    ensures !HasRole(current, "admin") ==> r == Err(Http(UNAUTHORIZED_401))
    ensures HasRole(current, "admin") && !isFile("backups/" + expectedFilename) ==> r == Err(Http(NOT_FOUND_404))
    ensures r.Ok? <==> HasRole(current, "admin") && isFile("backups/" + expectedFilename)
    ensures r.Ok? ==> |r.value| == 8 + |expectedFilename| && r.value[..8] == "backups/" && r.value[8..] == expectedFilename
  {
    if !HasRole(current, "admin") then Err(Http(UNAUTHORIZED_401))
    else
      var backupPath := "backups/" + expectedFilename;
      if !isFile(backupPath) then Err(Http(NOT_FOUND_404)) else Ok(backupPath)
  }

  /** A non-admin learns nothing about which backups exist. */
  lemma ReadBackupHidesFiles(current: User, name: string, isFile1: string -> bool, isFile2: string -> bool)
    requires !HasRole(current, "admin")
    ensures ReadBackup(current, name, isFile1) == ReadBackup(current, name, isFile2)
  {
  }
}

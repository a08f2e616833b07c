/** The file encryptor: which files an encryption or decryption run
    touches, the names it gives them, where it keeps the salt, how it
    reports the outcome, and the password dialog's rule. The file system is
    a parameter: whether the path is a file, the listing a directory walk
    yields, the paths that exist, and the files whose processing fails. */
module FileEncryptor {
  import opened Wrappers
  import opened Text

  datatype Operation = Encrypt | Decrypt

  const EncSuffix: string := ".enc"
  const SaltSuffix: string := ".salt"
  const FolderSalt: string := ".encryption_salt"

  // ---------------------------------------------------------------------
  // Names.

  /** `os.path.join(a, b)` for POSIX paths. */
  function JoinPath(a: string, b: string): (r: string)
    ensures EndsWith(r, b)
  {
    if b != [] && b[0] == '/' then
      assert b[|b| - |b|..] == b;
      b
    else if a == [] || a[|a| - 1] == '/' then
      assert (a + b)[|a + b| - |b|..] == b;
      a + b
    else
      assert (a + "/" + b)[|a + "/" + b| - |b|..] == b;
      a + "/" + b
  }

  /** The name an encrypted file is written under. */
  function EncryptedName(p: string): (r: string)
    ensures EndsWith(r, EncSuffix)
  {
    assert (p + EncSuffix)[|p + EncSuffix| - |EncSuffix|..] == EncSuffix;
    p + EncSuffix
  }

  /** `p[:-4]`, the name a decrypted file is written under. */
  function DecryptedName(p: string): (r: string)
    ensures |r| == if |p| >= 4 then |p| - 4 else 0
  {
    if |p| >= 4 then p[..|p| - 4] else ""
  }

  /** Decrypting undoes the encrypted name. */
  lemma DecryptedEncrypted(p: string)
    ensures DecryptedName(EncryptedName(p)) == p
  {
    assert (p + EncSuffix)[..|p|] == p;
  }

  /** For a name ending in ".enc", encrypting redoes the decrypted name. */
  lemma EncryptedDecrypted(p: string)
    requires EndsWith(p, EncSuffix)
    ensures EncryptedName(DecryptedName(p)) == p
  {
    assert p == p[..|p| - 4] + p[|p| - 4..];
  }

  // ---------------------------------------------------------------------
  // Selecting the files.

  /** Whether a directory entry is processed: encryption takes the files
      not yet ending in ".enc", decryption only those. */
  predicate Wanted(op: Operation, name: string) {
    if op == Encrypt then !EndsWith(name, EncSuffix) else EndsWith(name, EncSuffix)
  }

  /** The files of one directory of the walk. */
  function NameFiles(root: string, names: seq<string>, op: Operation): seq<string> {
    if names == [] then []
    else (if Wanted(op, names[0]) then [JoinPath(root, names[0])] else []) + NameFiles(root, names[1..], op)
  }

  /** The files of a walk: `(root, filenames)` pairs in the order
      `os.walk` yields them. */
  function WalkFiles(walk: seq<(string, seq<string>)>, op: Operation): seq<string> {
    if walk == [] then [] else NameFiles(walk[0].0, walk[0].1, op) + WalkFiles(walk[1..], op)
  }

  /** `_get_all_files(path, operation)`: a single file is taken when
      encrypting, or when decrypting a name ending in ".enc"; otherwise the
      directory walk decides. A path that does not exist walks to nothing. */
  function AllFiles(path: string, isFile: bool, walk: seq<(string, seq<string>)>, op: Operation): seq<string> {
    if isFile then (if op == Encrypt || EndsWith(path, EncSuffix) then [path] else [])
    else WalkFiles(walk, op)
  }

  lemma NameFilesFrom(root: string, names: seq<string>, op: Operation, j: int)
    requires 0 <= j < |names|
    ensures NameFiles(root, names[j..], op)
            == (if Wanted(op, names[j]) then [JoinPath(root, names[j])] else []) + NameFiles(root, names[j + 1..], op)
  {
    assert names[j..][0] == names[j] && names[j..][1..] == names[j + 1..];
  }

  lemma WalkFilesFrom(walk: seq<(string, seq<string>)>, op: Operation, i: int)
    requires 0 <= i < |walk|
    ensures WalkFiles(walk[i..], op) == NameFiles(walk[i].0, walk[i].1, op) + WalkFiles(walk[i + 1..], op)
  {
    assert walk[i..][0] == walk[i] && walk[i..][1..] == walk[i + 1..];
  }

  /** The inner loop over one directory's file names. */
  method CollectNames(root: string, names: seq<string>, op: Operation, files: seq<string>) returns (out: seq<string>)
    ensures out == files + NameFiles(root, names, op)
  {
    out := files;
    var j := 0;
    while j < |names|
      invariant 0 <= j <= |names|
      invariant files + NameFiles(root, names, op) == out + NameFiles(root, names[j..], op)
    {
      ghost var before := out;
      NameFilesFrom(root, names, op, j);
      var filename := names[j];
      var filePath := JoinPath(root, filename);
      var step: seq<string> := [];
      if op == Encrypt && !EndsWith(filename, EncSuffix) {
        step := [filePath];
      } else if op == Decrypt && EndsWith(filename, EncSuffix) {
        step := [filePath];
      }
      out := out + step;
      Assoc(before, step, NameFiles(root, names[j + 1..], op));
      j := j + 1;
    }
    assert names[j..] == [];
  }

  /** `_get_all_files(path, operation)`. */
  method GetAllFiles(path: string, isFile: bool, walk: seq<(string, seq<string>)>, op: Operation) returns (files: seq<string>)
    ensures files == AllFiles(path, isFile, walk, op)
  {
    files := [];
    if isFile {
      if op == Encrypt || (op == Decrypt && EndsWith(path, EncSuffix)) {
        files := files + [path];
      }
      return;
    }
    var i := 0;
    while i < |walk|
      invariant 0 <= i <= |walk|
      invariant WalkFiles(walk, op) == files + WalkFiles(walk[i..], op)
    {
      ghost var before := files;
      WalkFilesFrom(walk, op, i);
      var (root, filenames) := walk[i];
      files := CollectNames(root, filenames, op, files);
      Assoc(before, NameFiles(root, filenames, op), WalkFiles(walk[i + 1..], op));
      i := i + 1;
    }
    assert walk[i..] == [];
  }

  /** Every selected file comes from a directory entry the operation
      wants, joined to its directory. */
  lemma {:induction false} WalkFilesWanted(walk: seq<(string, seq<string>)>, op: Operation)
    ensures forall f :: f in WalkFiles(walk, op) ==>
              exists i, j :: 0 <= i < |walk| && 0 <= j < |walk[i].1|
                             && f == JoinPath(walk[i].0, walk[i].1[j]) && Wanted(op, walk[i].1[j])
  {
    if walk != [] {
      WalkFilesWanted(walk[1..], op);
      NameFilesWanted(walk[0].0, walk[0].1, op);
      forall f | f in WalkFiles(walk, op)
        ensures exists i, j :: 0 <= i < |walk| && 0 <= j < |walk[i].1|
                               && f == JoinPath(walk[i].0, walk[i].1[j]) && Wanted(op, walk[i].1[j])
      {
        if f in NameFiles(walk[0].0, walk[0].1, op) {
          var j :| 0 <= j < |walk[0].1| && f == JoinPath(walk[0].0, walk[0].1[j]) && Wanted(op, walk[0].1[j]);
          assert 0 < |walk|;
        } else {
          assert f in WalkFiles(walk[1..], op);
          var i, j :| 0 <= i < |walk[1..]| && 0 <= j < |walk[1..][i].1|
                      && f == JoinPath(walk[1..][i].0, walk[1..][i].1[j]) && Wanted(op, walk[1..][i].1[j]);
          assert walk[1..][i] == walk[i + 1];
        }
      }
    }
  }

  lemma {:induction false} NameFilesWanted(root: string, names: seq<string>, op: Operation)
    ensures forall f :: f in NameFiles(root, names, op) ==>
              exists j :: 0 <= j < |names| && f == JoinPath(root, names[j]) && Wanted(op, names[j])
  {
    if names != [] {
      NameFilesWanted(root, names[1..], op);
      forall f | f in NameFiles(root, names, op)
        ensures exists j :: 0 <= j < |names| && f == JoinPath(root, names[j]) && Wanted(op, names[j])
      {
        if f !in NameFiles(root, names[1..], op) {
          assert f == JoinPath(root, names[0]) && Wanted(op, names[0]);
        } else {
          var j :| 0 <= j < |names[1..]| && f == JoinPath(root, names[1..][j]) && Wanted(op, names[1..][j]);
          assert names[1..][j] == names[j + 1];
        }
      }
    }
  }

  /** The number of file names in a walk. */
  function NameCount(walk: seq<(string, seq<string>)>): nat {
    if walk == [] then 0 else |walk[0].1| + NameCount(walk[1..])
  }

  /** In a folder every file name is taken by exactly one of the two
      operations. */
  lemma {:induction false} OperationsSplitTheFolder(walk: seq<(string, seq<string>)>)
    ensures |WalkFiles(walk, Encrypt)| + |WalkFiles(walk, Decrypt)| == NameCount(walk)
  {
    if walk != [] {
      OperationsSplitTheFolder(walk[1..]);
      NamesSplit(walk[0].0, walk[0].1);
    }
  }

  lemma {:induction false} NamesSplit(root: string, names: seq<string>)
    ensures |NameFiles(root, names, Encrypt)| + |NameFiles(root, names, Decrypt)| == |names|
  {
    if names != [] {
      NamesSplit(root, names[1..]);
    }
  }

  /** Every file a decryption selects ends in ".enc", so its decrypted name
      is the name it was encrypted from. */
  lemma DecryptTargetsRoundTrip(path: string, isFile: bool, walk: seq<(string, seq<string>)>, f: string)
    requires f in AllFiles(path, isFile, walk, Decrypt)
    ensures EndsWith(f, EncSuffix)
    ensures EncryptedName(DecryptedName(f)) == f
  {
    if !isFile {
      WalkFilesWanted(walk, Decrypt);
      var i, j :| 0 <= i < |walk| && 0 <= j < |walk[i].1|
                  && f == JoinPath(walk[i].0, walk[i].1[j]) && Wanted(Decrypt, walk[i].1[j]);
      EndsWithTail(f, walk[i].1[j], EncSuffix);
    }
    EncryptedDecrypted(f);
  }

  /** A text ending in a name that ends in a suffix ends in the suffix. */
  lemma EndsWithTail(s: string, name: string, suffix: string)
    requires EndsWith(s, name) && EndsWith(name, suffix)
    ensures EndsWith(s, suffix)
  {
    assert s[|s| - |suffix|..] == s[|s| - |name|..][|name| - |suffix|..];
  }

  // ---------------------------------------------------------------------
  // The salt.

  /** Where the salt is kept: inside a folder for a folder, next to the
      original file for a single file. */
  function SaltFile(op: Operation, path: string, isFolder: bool): string {
    if isFolder then JoinPath(path, FolderSalt)
    else if op == Decrypt && EndsWith(path, EncSuffix) then DecryptedName(path) + SaltSuffix
    else path + SaltSuffix
  }

  /** Decrypting a file finds the salt its encryption wrote; a folder keeps
      one salt for both operations. */
  lemma SaltRoundTrip(p: string, isFolder: bool)
    ensures SaltFile(Decrypt, EncryptedName(p), false) == SaltFile(Encrypt, p, false)
    ensures SaltFile(Decrypt, p, true) == SaltFile(Encrypt, p, true)
  {
    DecryptedEncrypted(p);
  }

  /** A folder encrypted a second time takes the salt file left by the
      first run as one of its files. This is the source's behaviour: the
      file list is collected before the new salt is written over the old
      one, so that salt is then encrypted itself. */
  lemma RepeatedEncryptionTakesOldSalt(path: string, names: seq<string>, rest: seq<(string, seq<string>)>)
    requires FolderSalt in names
    ensures SaltFile(Encrypt, path, true) in AllFiles(path, false, [(path, names)] + rest, Encrypt)
  {
    var j :| 0 <= j < |names| && names[j] == FolderSalt;
    assert !EndsWith(FolderSalt, EncSuffix) by {
      assert FolderSalt[|FolderSalt| - 4..] != EncSuffix by {
        assert FolderSalt[|FolderSalt| - 4..][3] == 't' && EncSuffix[3] == 'c';
      }
    }
    NameFilesHas(path, names, j);
    assert ([(path, names)] + rest)[0] == (path, names);
  }

  lemma {:induction false} NameFilesHas(root: string, names: seq<string>, j: int)
    requires 0 <= j < |names| && Wanted(Encrypt, names[j])
    ensures JoinPath(root, names[j]) in NameFiles(root, names, Encrypt)
  {
    if j > 0 {
      NameFilesHas(root, names[1..], j - 1);
    }
  }

  // ---------------------------------------------------------------------
  // The run.

  /** The outcome `run` reports, with the salt file it wrote (encryption)
      or read and removed (decryption), and the files it processed. */
  datatype Report = Report(success: bool, message: string, salt: Option<string>, processed: seq<string>)

  const SaltMissing: string := "Salt file not found. Cannot decrypt without the original salt."

  function NoFilesMessage(op: Operation): string {
    if op == Encrypt then "No files found to encrypt." else "No encrypted files (.enc) found to decrypt."
  }

  function DoneWord(op: Operation): string {
    if op == Encrypt then "encrypted" else "decrypted"
  }

  /** The number of files processed without failure. */
  function Successes(files: seq<string>, failed: set<string>): (n: nat)
    ensures n <= |files|
  {
    if files == [] then 0
    else Successes(files[..|files| - 1], failed) + (if files[|files| - 1] in failed then 0 else 1)
  }

  /** All files succeed exactly when none of them fails. */
  lemma {:induction false} SuccessesAll(files: seq<string>, failed: set<string>)
    ensures Successes(files, failed) == |files| <==> forall i :: 0 <= i < |files| ==> files[i] !in failed
  {
    if files != [] {
      var init := files[..|files| - 1];
      SuccessesAll(init, failed);
      assert forall i :: 0 <= i < |init| ==> init[i] == files[i];
    }
  }

  /** What `run` reports. `existing` are the paths that exist when the
      salt is looked for, `saltWriteError` the error writing the salt file
      raises, if any. */
  function RunReport(op: Operation, path: string, isFolder: bool, files: seq<string>,
                     existing: set<string>, saltWriteError: Option<string>, failed: set<string>): Report
  {
    if files == [] then Report(false, NoFilesMessage(op), None, [])
    else
      var salt := SaltFile(op, path, isFolder);
      if op == Encrypt && saltWriteError.Some? then Report(false, "Operation failed: " + saltWriteError.value, None, [])
      else if op == Decrypt && salt !in existing then Report(false, SaltMissing, None, [])
      else
        var n := Successes(files, failed);
        if n == |files| then
          Report(true, "Successfully " + DoneWord(op) + " " + NatToString(n) + " file(s).", Some(salt), files)
        else
          Report(false, "Completed with issues: " + NatToString(n) + "/" + NatToString(|files|)
                        + " files processed successfully.", Some(salt), files)
  }

  /** The loop of `run`: one attempt per file, counting the successes. */
  method ProcessFiles(files: seq<string>, failed: set<string>) returns (successful: nat, processed: seq<string>)
    ensures successful == Successes(files, failed)
    ensures processed == files
  {
    successful := 0;
    processed := [];
    for i := 0 to |files|
      invariant successful == Successes(files[..i], failed)
      invariant processed == files[..i]
    {
      var success := files[i] !in failed;
      if success {
        successful := successful + 1;
      }
      processed := processed + [files[i]];
      assert files[..i + 1][..i] == files[..i];
    }
    assert files[..|files|] == files;
  }

  /** `run` from the selected files on: the salt, then one attempt per
      file, counting the successes. */
  method Run(op: Operation, path: string, isFolder: bool, files: seq<string>,
             existing: set<string>, saltWriteError: Option<string>, failed: set<string>) returns (report: Report)
    ensures report == RunReport(op, path, isFolder, files, existing, saltWriteError, failed)
  {
    if files == [] {
      return Report(false, NoFilesMessage(op), None, []);
    }
    var total := |files|;
    var successful := 0;
    var saltFile: string;
    if op == Encrypt {
      saltFile := if isFolder then JoinPath(path, FolderSalt) else path + SaltSuffix;
      if saltWriteError.Some? {
        return Report(false, "Operation failed: " + saltWriteError.value, None, []);
      }
    } else {
      if isFolder {
        saltFile := JoinPath(path, FolderSalt);
      } else if EndsWith(path, EncSuffix) {
        var originalFilePath := path[..|path| - 4];
        saltFile := originalFilePath + SaltSuffix;
      } else {
        saltFile := path + SaltSuffix;
      }
      if saltFile !in existing {
        return Report(false, SaltMissing, None, []);
      }
    }
    assert saltFile == SaltFile(op, path, isFolder);
    var processed;
    successful, processed := ProcessFiles(files, failed);
    if successful == total {
      return Report(true, "Successfully " + DoneWord(op) + " " + NatToString(successful) + " file(s).", Some(saltFile), processed);
    }
    return Report(false, "Completed with issues: " + NatToString(successful) + "/" + NatToString(total)
                         + " files processed successfully.", Some(saltFile), processed);
  }

  /** A run succeeds exactly when it has files, its salt could be written
      or found, and no file fails. */
  lemma RunSucceedsIff(op: Operation, path: string, isFolder: bool, files: seq<string>,
                       existing: set<string>, saltWriteError: Option<string>, failed: set<string>)
    ensures RunReport(op, path, isFolder, files, existing, saltWriteError, failed).success
            <==> files != []
                 && (op == Encrypt ==> saltWriteError.None?)
                 && (op == Decrypt ==> SaltFile(op, path, isFolder) in existing)
                 && forall i :: 0 <= i < |files| ==> files[i] !in failed
  {
    SuccessesAll(files, failed);
  }

  /** A run that gets past the salt processes every selected file, in
      order, whatever fails. */
  lemma RunProcessesAll(op: Operation, path: string, isFolder: bool, files: seq<string>,
                        existing: set<string>, saltWriteError: Option<string>, failed: set<string>)
    requires RunReport(op, path, isFolder, files, existing, saltWriteError, failed).salt.Some?
    ensures RunReport(op, path, isFolder, files, existing, saltWriteError, failed).processed == files
    ensures RunReport(op, path, isFolder, files, existing, saltWriteError, failed).salt == Some(SaltFile(op, path, isFolder))
  {
  }

  /** A single file encrypted and then decrypted: the decryption selects
      exactly the encrypted file, finds the salt the encryption wrote, and
      writes the file back under its first name. */
  lemma SingleFileRoundTrip(p: string, walk: seq<(string, seq<string>)>)
    ensures AllFiles(p, true, walk, Encrypt) == [p]
    ensures AllFiles(EncryptedName(p), true, walk, Decrypt) == [EncryptedName(p)]
    ensures SaltFile(Decrypt, EncryptedName(p), false) == SaltFile(Encrypt, p, false)
    ensures DecryptedName(EncryptedName(p)) == p
  {
    SaltRoundTrip(p, false);
  }

  // ---------------------------------------------------------------------
  // The password dialog.

  /** `validate_and_accept`: the warning shown, or success when the dialog
      is accepted. */
  function ValidatePassword(op: Operation, password: string, confirmation: string): (r: Result<(), string>)
    ensures r.Success? <==> password != "" && (op == Encrypt ==> password == confirmation)
    ensures password == "" ==> r == Failure("Password cannot be empty.")
    ensures password != "" && op == Encrypt && password != confirmation ==> r == Failure("Passwords do not match.")
  {
    if password == "" then Failure("Password cannot be empty.")
    else if op == Encrypt && password != confirmation then Failure("Passwords do not match.")
    else Success(())
  }
}

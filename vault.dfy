/** The vault of modules/security.py: the name test that keeps encrypted
    files out of categorisation, and the file and key-store effects of
    `encrypt_file` and `decrypt_file`. The cipher is a parameter: `seal`
    stands for `Fernet(key).encrypt`, `unseal` for `Fernet(key).decrypt`
    (None when the token is rejected). */
module Vault {
  import opened Base
  import opened Names
  import opened Fs

  /** A Fernet key, as returned by `Fernet.generate_key`. */
  type Key = string

  const EncSuffix: string := ".enc"

  /** `is_encrypted`: the name's suffix is exactly ".enc" — a case-sensitive
      test on the name alone. */
  function IsEncrypted(name: string): (b: bool)
    ensures b <==> |name| >= 5 && EndsWith(name, EncSuffix)
  {
    EncSuffixByEnding(name);
    Suffix(name) == EncSuffix
  }

  lemma EncSuffixByEnding(name: string)
    ensures Suffix(name) == EncSuffix <==> |name| >= 5 && EndsWith(name, EncSuffix)
  {
    if |name| >= 5 && EndsWith(name, EncSuffix) {
      var a := name[..|name| - 4];
      assert name == a + EncSuffix;
      LastDotOfDottedTail(a, EncSuffix);
    }
  }

  /** The file `encrypt_file` writes: `path.with_suffix('.enc')`. */
  function EncryptTarget(name: string): string
  {
    WithSuffix(name, EncSuffix)
  }

  /** The file `decrypt_file` writes: `path.with_suffix('')`. */
  function DecryptTarget(name: string): string
  {
    WithSuffix(name, "")
  }

  /** The file effects of `encrypt_file(directory/name, password)` with `key`
      the output of `generate_key`: read, write the token to the ".enc"
      name, then delete the original; the first failure stops the sequence. */
  function EncryptSpec(t: Tree, denied: set<RelPath>, name: string, key: Key,
                       seal: (Key, string) -> string): Step
  {
    match ReadFile(t, denied, name)
    case Err(f) => Step(t, Some(f))
    case Ok(data) =>
      var w := WriteFile(t, denied, EncryptTarget(name), seal(key, data));
      if w.err.Some? then w else Unlink(w.tree, denied, name)
  }

  /** The file effects of `decrypt_file(directory/name, password)`: read,
      decrypt, write the plaintext to the suffix-less name, then delete the
      token file. */
  function DecryptSpec(t: Tree, denied: set<RelPath>, name: string, key: Key,
                       unseal: (Key, string) -> Option<string>): Step
  {
    match ReadFile(t, denied, name)
    case Err(f) => Step(t, Some(f))
    case Ok(data) =>
      match unseal(key, data)
      case None => Step(t, Some(InvalidToken))
      case Some(plain) =>
        var w := WriteFile(t, denied, DecryptTarget(name), plain);
        if w.err.Some? then w else Unlink(w.tree, denied, name)
  }

  class FileVault {
    /** `key_store`: original file name to key, in memory only. */
    var keyStore: map<string, Key>

    constructor ()
      ensures keyStore == map[]
    {
      keyStore := map[];
    }

    /** `encrypt_file`. `key` is what `generate_key(password)` returns: a
        fresh key that does not depend on the password. The key is recorded
        under the original name only once the original has been deleted. */
    method EncryptFile(dir: Directory, name: string, password: string, key: Key,
                       seal: (Key, string) -> string) returns (err: Option<Failure>)
      modifies this, dir
      ensures var s := EncryptSpec(old(dir.entries), dir.denied, name, key, seal);
              dir.entries == s.tree && err == s.err
      ensures keyStore == if err.None? then old(keyStore)[name := key] else old(keyStore)
    {
      var read := ReadFile(dir.entries, dir.denied, name);
      if read.Err? {
        return Some(read.failure);
      }
      var written := WriteFile(dir.entries, dir.denied, EncryptTarget(name), seal(key, read.value));
      if written.err.Some? {
        return written.err;
      }
      dir.entries := written.tree;
      var removed := Unlink(dir.entries, dir.denied, name);
      if removed.err.Some? {
        return removed.err;
      }
      dir.entries := removed.tree;
      keyStore := keyStore[name := key];
      err := None;
    }

    /** `decrypt_file`: never reads or changes the key store. */
    method DecryptFile(dir: Directory, name: string, password: string, key: Key,
                       unseal: (Key, string) -> Option<string>) returns (err: Option<Failure>)
      modifies dir
      ensures var s := DecryptSpec(old(dir.entries), dir.denied, name, key, unseal);
              dir.entries == s.tree && err == s.err
      ensures unchanged(this)
    {
      var read := ReadFile(dir.entries, dir.denied, name);
      if read.Err? {
        return Some(read.failure);
      }
      var plain := unseal(key, read.value);
      if plain.None? {
        return Some(InvalidToken);
      }
      var written := WriteFile(dir.entries, dir.denied, DecryptTarget(name), plain.value);
      if written.err.Some? {
        return written.err;
      }
      dir.entries := written.tree;
      var removed := Unlink(dir.entries, dir.denied, name);
      if removed.err.Some? {
        return removed.err;
      }
      dir.entries := removed.tree;
      err := None;
    }
  }

  // ---------------------------------------------------------------------------
  // Properties

  /** The file `encrypt_file` writes carries the ".enc" suffix, so the
      organiser skips it afterwards. */
  lemma {:induction false} EncryptTargetIsEncrypted(name: string)
    requires name != ""
    ensures IsEncrypted(EncryptTarget(name))
    ensures Stem(EncryptTarget(name)) == Stem(name)
  {
    var stem := Stem(name);
    LastDotOfDottedTail(stem, EncSuffix);
    assert (stem + EncSuffix)[..|stem|] == stem;
  }

  /** `with_suffix` replaces the old suffix: names that differ only in their
      suffix are encrypted onto the same file. */
  lemma SameStemSameTarget(a: string, b: string)
    requires Stem(a) == Stem(b)
    ensures EncryptTarget(a) == EncryptTarget(b)
  {
  }

  lemma {:induction false} TextAndPdfCollide()
    ensures EncryptTarget("a.txt") == "a.enc" && EncryptTarget("a.pdf") == "a.enc"
  {
    assert LastIndexOf("a.txt", '.') == 1 by {
      LastDotOfDottedTail("a", ".txt");
      assert "a" + ".txt" == "a.txt";
    }
    assert LastIndexOf("a.pdf", '.') == 1 by {
      LastDotOfDottedTail("a", ".pdf");
      assert "a" + ".pdf" == "a.pdf";
    }
  }

  /** The original is deleted only after the token was written: whenever the
      encryption removes the plaintext (and the target is another name), the
      target holds the token of the plaintext's data. */
  lemma DeletionOnlyAfterWrite(t: Tree, denied: set<RelPath>, name: string, key: Key,
                               seal: (Key, string) -> string)
    requires IsFileAt(t, name) && EncryptTarget(name) != name
    ensures var s := EncryptSpec(t, denied, name, key, seal);
            name !in s.tree ==>
              s.err.None? && s.tree == t[EncryptTarget(name) := File(seal(key, t[name].data))] - {name}
  {
  }

  /** A failed write leaves the original in place; a failed delete leaves
      both the original and the token. */
  lemma FailedEncryptionKeepsOriginal(t: Tree, denied: set<RelPath>, name: string, key: Key,
                                      seal: (Key, string) -> string)
    requires IsFileAt(t, name) && EncryptTarget(name) != name
    ensures var s := EncryptSpec(t, denied, name, key, seal);
            s.err.Some? ==> name in s.tree && s.tree[name] == t[name]
  {
  }

  /** Encrypting a file that already has the ".enc" suffix writes the token
      over the file itself and then deletes it: nothing is left. */
  lemma {:induction false} EncryptingEncryptedFileDestroysIt(t: Tree, denied: set<RelPath>, name: string,
                                                            key: Key, seal: (Key, string) -> string)
    requires IsEncrypted(name) && IsFileAt(t, name)
    ensures EncryptTarget(name) == name
    ensures var s := EncryptSpec(t, denied, name, key, seal);
            s.err.None? ==> s.tree == t - {name}
  {
    EncSuffixByEnding(name);
    assert Stem(name) + EncSuffix == name;
  }

  /** Decryption writes to the name without its suffix: "report.enc" gives
      "report", and the original suffix of an encrypted "report.pdf" is lost. */
  lemma {:induction false} DecryptTargetOfEncryptTarget(name: string)
    requires name != ""
    ensures DecryptTarget(EncryptTarget(name)) == Stem(name)
  {
    EncryptTargetIsEncrypted(name);
  }

  /** Decrypting a file that has no suffix writes the plaintext over the file
      itself and then deletes it. */
  lemma DecryptingSuffixlessFileDestroysIt(t: Tree, denied: set<RelPath>, name: string,
                                           key: Key, unseal: (Key, string) -> Option<string>)
    requires Suffix(name) == "" && IsFileAt(t, name)
    ensures DecryptTarget(name) == name
    ensures var s := DecryptSpec(t, denied, name, key, unseal);
            s.err.None? ==> s.tree == t - {name}
  {
  }

  /** Decryption fails, changing nothing, when the cipher rejects the token. */
  lemma RejectedTokenChangesNothing(t: Tree, denied: set<RelPath>, name: string,
                                    key: Key, unseal: (Key, string) -> Option<string>)
    requires IsFileAt(t, name) && [name] !in denied && unseal(key, t[name].data).None?
    ensures DecryptSpec(t, denied, name, key, unseal) == Step(t, Some(InvalidToken))
  {
  }
}

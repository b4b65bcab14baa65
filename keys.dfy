/**
 * The key naming scheme that turns a flat blob namespace into documents with
 * an optional attached file: a document's content lives under its id, a file
 * uploaded with it under `id + "_" + filename`.
 */
module Keys {
  import opened Results

  /** The character that separates a document id from an attachment's filename. */
  const Separator: char := '_'

  /** The filename used when an upload carries no name. */
  const DefaultFileName: string := "file"

  /** The prefix every companion key of `id` starts with: `format!("{}_{}", id, "")`. */
  function CompanionPrefix(id: string): string {
    id + [Separator]
  }

  /** The key of the file uploaded with document `id`: `format!("{}_{}", id, name.unwrap_or("file"))`. */
  function CompanionKey(id: string, name: Option<string>): (k: string)
    ensures CompanionPrefix(id) <= k && |k| > |id|
    ensures k[|id|] == Separator
    ensures k[|id| + 1..] == (if name.Some? then name.value else DefaultFileName)
  {
    CompanionPrefix(id) + (if name.Some? then name.value else DefaultFileName)
  }

  /** Keys holding a separator are attachments, never documents of their own. */
  predicate IsCompanionKey(key: string)
    ensures !IsCompanionKey(key) ==> forall id :: !(CompanionPrefix(id) <= key)
  {
    assert forall id :: CompanionPrefix(id) <= key ==> Separator in key by {
      forall id | CompanionPrefix(id) <= key ensures Separator in key {
        assert key[|id|] == CompanionPrefix(id)[|id|] == Separator;
      }
    }
    Separator in key
  }

  /** The listed keys that name documents, in listing order: the filter `!name.contains('_')`. */
  function PrimaryKeys(keys: seq<string>): (ids: seq<string>)
    ensures |ids| <= |keys|
  {
    if keys == [] then []
    else if IsCompanionKey(keys[0]) then PrimaryKeys(keys[1..])
    else [keys[0]] + PrimaryKeys(keys[1..])
  }

  /** The first listed key that starts with `id + "_"`, if any. */
  function FirstCompanion(keys: seq<string>, id: string): (r: Option<string>)
    ensures r.Some? ==> r.value in keys && CompanionPrefix(id) <= r.value
  {
    if keys == [] then None
    else if CompanionPrefix(id) <= keys[0] then Some(keys[0])
    else FirstCompanion(keys[1..], id)
  }

  /** A primary key is a listed key without a separator, and every such key is primary. */
  lemma {:induction false} PrimaryKeysAreUnseparated(keys: seq<string>)
    ensures forall k :: k in PrimaryKeys(keys) <==> k in keys && !IsCompanionKey(k)
  {
    if keys != [] {
      PrimaryKeysAreUnseparated(keys[1..]);
      assert keys == [keys[0]] + keys[1..];
    }
  }

  /** The filter keeps listing order: filtering a concatenation concatenates the filtered parts. */
  lemma {:induction false} PrimaryKeysAppend(a: seq<string>, b: seq<string>)
    ensures PrimaryKeys(a + b) == PrimaryKeys(a) + PrimaryKeys(b)
  {
    if a == [] {
      assert a + b == b;
    } else {
      assert (a + b)[1..] == a[1..] + b;
      PrimaryKeysAppend(a[1..], b);
    }
  }

  /**
   * The companion search finds nothing exactly when no listed key starts with
   * `id + "_"`, and otherwise the listed key at the first position that does.
   */
  lemma {:induction false} FirstCompanionIsFirstMatch(keys: seq<string>, id: string)
    ensures FirstCompanion(keys, id).None? <==> forall j :: 0 <= j < |keys| ==> !(CompanionPrefix(id) <= keys[j])
    ensures FirstCompanion(keys, id).Some? ==>
      exists j :: 0 <= j < |keys| && keys[j] == FirstCompanion(keys, id).value
        && CompanionPrefix(id) <= keys[j]
        && forall i :: 0 <= i < j ==> !(CompanionPrefix(id) <= keys[i])
  {
    if keys != [] && !(CompanionPrefix(id) <= keys[0]) {
      FirstCompanionIsFirstMatch(keys[1..], id);
      if FirstCompanion(keys, id).Some? {
        var j :| 0 <= j < |keys[1..]| && keys[1..][j] == FirstCompanion(keys, id).value
          && CompanionPrefix(id) <= keys[1..][j]
          && forall i :: 0 <= i < j ==> !(CompanionPrefix(id) <= keys[1..][i]);
        assert keys[j + 1] == keys[1..][j];
        assert forall i :: 0 <= i < j + 1 ==> !(CompanionPrefix(id) <= keys[i]) by {
          forall i | 0 <= i < j + 1 ensures !(CompanionPrefix(id) <= keys[i]) {
            if i > 0 { assert keys[i] == keys[1..][i - 1]; }
          }
        }
      } else {
        forall j | 0 <= j < |keys| ensures !(CompanionPrefix(id) <= keys[j]) {
          if j > 0 { assert keys[j] == keys[1..][j - 1]; }
        }
      }
    }
  }

  /** When `k` is the only listed key with the prefix of `id`, the search finds `k`. */
  lemma {:induction false} FirstCompanionFindsOnly(keys: seq<string>, id: string, k: string)
    requires k in keys && CompanionPrefix(id) <= k
    requires forall key :: key in keys && CompanionPrefix(id) <= key ==> key == k
    ensures FirstCompanion(keys, id) == Some(k)
  {
    if keys[0] != k {
      assert keys == [keys[0]] + keys[1..];
      assert keys[0] in keys;
      forall key | key in keys[1..] ensures key in keys {
        var j :| 0 <= j < |keys[1..]| && keys[1..][j] == key;
        assert keys[j + 1] == key;
      }
      FirstCompanionFindsOnly(keys[1..], id, k);
    }
  }

  /**
   * Because ids never contain the separator, a key starts with `id + "_"` for
   * at most one id: the companion search cannot credit one document with
   * another document's file.
   */
  lemma CompanionOwnerIsUnique(id1: string, id2: string, key: string)
    requires Separator !in id1 && Separator !in id2
    requires CompanionPrefix(id1) <= key && CompanionPrefix(id2) <= key
    ensures id1 == id2
  {
    if |id1| < |id2| {
      LongerPrefixHoldsSeparator(id1, id2, key);
      assert false;
    } else if |id2| < |id1| {
      LongerPrefixHoldsSeparator(id2, id1, key);
      assert false;
    } else {
      assert id1 == key[..|id1|] == id2;
    }
  }

  /** Of two companion prefixes of one key, the longer id holds the shorter one's separator. */
  lemma LongerPrefixHoldsSeparator(shorter: string, longer: string, key: string)
    requires CompanionPrefix(shorter) <= key && CompanionPrefix(longer) <= key
    requires |shorter| < |longer|
    ensures Separator in longer
  {
    assert longer[|shorter|] == key[|shorter|] == Separator;
  }

  /** Distinct (id, filename) pairs give distinct companion keys. */
  lemma CompanionKeyIsInjective(id1: string, n1: Option<string>, id2: string, n2: Option<string>)
    requires Separator !in id1 && Separator !in id2
    requires CompanionKey(id1, n1) == CompanionKey(id2, n2)
    ensures id1 == id2
    ensures (if n1.Some? then n1.value else DefaultFileName) == (if n2.Some? then n2.value else DefaultFileName)
  {
    CompanionOwnerIsUnique(id1, id2, CompanionKey(id1, n1));
  }
}

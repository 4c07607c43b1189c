/** Discovering the country datasets: the file-name pattern
    `^([A-Z]+)\.yaml$` and the sorted code list built from a directory
    listing. The listing itself is an input. */
module CountryList {
  import opened Document
  import opened StringOrder
  import opened Sorting

  /** The extension every data file carries. */
  const Ext: string := ".yaml"

  predicate IsUpper(c: char)
  {
    'A' <= c <= 'Z'
  }

  /** A country code as the pattern admits it: one or more ASCII capitals. */
  predicate IsCode(s: string)
  {
    |s| > 0 && forall i :: 0 <= i < |s| ==> IsUpper(s[i])
  }

  /** The file a code is loaded from (the base dataset uses code "0"). */
  function FileName(code: string): string
  {
    code + Ext
  }

  /** The capture group of `^([A-Z]+)\.yaml$` on `file`, when it matches. */
  function Stem(file: string): (r: Option<string>)
    ensures r.Some? ==> IsCode(r.value) && FileName(r.value) == file
    ensures r.None? ==> forall c :: IsCode(c) ==> FileName(c) != file
  {
    var n := |file| - |Ext|;
    if n > 0 && file[n..] == Ext && IsCode(file[..n]) then
      assert file == file[..n] + file[n..];
      Some(file[..n])
    else
      NoCodeNames(file);
      None
  }

  lemma NoCodeNames(file: string)
    requires !(|file| - |Ext| > 0 && file[|file| - |Ext|..] == Ext && IsCode(file[..|file| - |Ext|]))
    ensures forall c :: IsCode(c) ==> FileName(c) != file
  {
  }

  /** The pattern accepts exactly the file names of country codes, and
      gives back the code: `Stem` inverts `FileName`. */
  lemma StemOfFileName(code: string)
    ensures Stem(FileName(code)) == if IsCode(code) then Some(code) else None
  {
    var f := FileName(code);
    if IsCode(code) {
      assert f[..|code|] == code && f[|code|..] == Ext;
    }
  }

  /** The map-then-filter step: the codes of the matching names, in
      listing order. */
  function Stems(files: seq<string>): (r: seq<string>)
    ensures forall c :: c in r <==> IsCode(c) && FileName(c) in files
    ensures |r| <= |files|
  {
    if |files| == 0 then []
    else
      var rest := Stems(files[1..]);
      assert files == [files[0]] + files[1..];
      match Stem(files[0])
      case Some(c) => [c] + rest
      case None => rest
  }

  /** `getList`: the codes of the matching file names, sorted. */
  function GetList(files: seq<string>): (r: seq<string>)
    ensures Sorted(r)
    ensures multiset(r) == multiset(Stems(files))
    ensures forall c :: c in r <==> IsCode(c) && FileName(c) in files
  {
    var r := Sort(Stems(files));
    assert forall c :: c in r <==> c in multiset(Stems(files));
    r
  }

  /** Any sorted arrangement of the matching codes is the one `getList`
      returns. */
  lemma GetListIsTheSortedStems(files: seq<string>, r: seq<string>)
    requires Sorted(r) && multiset(r) == multiset(Stems(files))
    ensures r == GetList(files)
  {
    SortedPermutationUnique(r, GetList(files));
  }

  /** A directory lists each name once, so no code appears twice and the
      list is strictly ascending. */
  lemma GetListStrict(files: seq<string>)
    requires Distinct(files)
    ensures Distinct(GetList(files))
    ensures forall i, j :: 0 <= i < j < |GetList(files)| ==>
              LessEq(GetList(files)[i], GetList(files)[j]) && GetList(files)[i] != GetList(files)[j]
  {
    StemsDistinct(files);
    SortedDistinctIsStrict(Stems(files), GetList(files));
  }

  lemma {:induction false} StemsDistinct(files: seq<string>)
    requires Distinct(files)
    ensures Distinct(Stems(files))
  {
    if |files| > 0 {
      var tail := files[1..];
      assert Distinct(tail) by {
        forall i, j | 0 <= i < j < |tail| ensures tail[i] != tail[j] {
          assert tail[i] == files[i + 1] && tail[j] == files[j + 1];
        }
      }
      StemsDistinct(tail);
      match Stem(files[0])
      case Some(c) =>
        assert files == [files[0]] + tail;
        assert files[0] !in tail by {
          forall k | 0 <= k < |tail| ensures tail[k] != files[0] {
            assert tail[k] == files[k + 1];
          }
        }
        assert c !in Stems(tail);
        var r := [c] + Stems(tail);
        forall i, j | 0 <= i < j < |r| ensures r[i] != r[j] {
          if i == 0 {
            assert r[j] in Stems(tail);
          } else {
            assert r[i] == Stems(tail)[i - 1] && r[j] == Stems(tail)[j - 1];
          }
        }
      case None =>
    }
  }
}

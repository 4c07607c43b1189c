/** The version stamp: `new Date().toISOString()` passed through
    `.replace(/^(.*)T.*$/, '$1')`. The clock reading is an input; the
    replacement is modelled exactly. */
module Version {
  import opened Document

  /** The characters a regular-expression `.` does not match. */
  predicate IsLineTerminator(c: char)
  {
    c == '\n' || c == '\r' || c == '\U{2028}' || c == '\U{2029}'
  }

  predicate NoLineTerminator(s: string)
  {
    forall i :: 0 <= i < |s| ==> !IsLineTerminator(s[i])
  }

  /** The position of the last 'T' in `s`, if any. */
  function LastT(s: string): (r: Option<nat>)
    ensures r.Some? ==> r.value < |s| && s[r.value] == 'T' && 'T' !in s[r.value + 1..]
    ensures r.None? ==> 'T' !in s
  {
    if |s| == 0 then None
    else if s[|s| - 1] == 'T' then Some(|s| - 1)
    else
      var r := LastT(s[..|s| - 1]);
      assert s == s[..|s| - 1] + [s[|s| - 1]];
      r
  }

  /** The result of the replacement. The pattern, anchored at both ends and
      with a greedy group, matches when the whole text is free of line
      terminators and holds a 'T'; the group then reaches up to the last
      'T'. Without a match the text is returned as it is. */
  function DatePart(iso: string): (r: string)
    ensures NoLineTerminator(iso) && 'T' in iso ==>
              |r| < |iso| && iso[..|r|] == r && iso[|r|] == 'T' && 'T' !in iso[|r| + 1..]
    ensures !NoLineTerminator(iso) || 'T' !in iso ==> r == iso
  {
    if !NoLineTerminator(iso) then iso
    else match LastT(iso)
      case None => iso
      case Some(i) => iso[..i]
  }

  /** Splitting a timestamp at its last 'T' and stamping gives back the
      date half: for `2024-05-01T10:20:30.000Z` the version is
      `2024-05-01`. */
  lemma {:induction false} DatePartOfTimestamp(date: string, time: string)
    requires NoLineTerminator(date) && NoLineTerminator(time)
    requires 'T' !in time
    ensures DatePart(date + "T" + time) == date
  {
    var iso := date + "T" + time;
    assert iso[|date|] == 'T';
    assert iso[|date| + 1..] == time;
    assert NoLineTerminator(iso) by {
      forall i | 0 <= i < |iso| ensures !IsLineTerminator(iso[i]) {
        if i < |date| { assert iso[i] == date[i]; }
        else if i > |date| { assert iso[i] == time[i - |date| - 1]; }
      }
    }
    var r := DatePart(iso);
    assert |r| == |date|;
    assert r == iso[..|date|] == date;
  }
}

/**
 * The file selection of `get_fingerprints_from_path_with_cond` (py_RMAP/RMAP.py:34-79):
 * the directory listing is filtered, in order, by substring tests on each file name, and
 * every selected file is loaded. The listing and the loader are parameters; a `None`
 * string argument makes Python's `in` raise TypeError, which is modelled as an error.
 */
module FileFilter {
  import opened Wrappers

  /** The default `connectivity_name_str`. */
  const DefaultConnectivityName: string := "_AvgR_Fz.nii"

  /** `None in k` raises TypeError: the left operand of `in <string>` must be a string. */
  datatype FilterError = TypeError

  /**
   * The selection mode chosen by `keep`: Keep uses only `str_to_keep`, Omit only
   * `str_to_omit`; the other string is never looked at.
   */
  datatype Mode = Keep(toKeep: Option<string>) | Omit(toOmit: Option<string>)

  function ModeOf(keep: bool, strToOmit: Option<string>, strToKeep: Option<string>): (m: Mode)
    ensures m.Keep? <==> keep
    ensures m.Keep? ==> m.toKeep == strToKeep
    ensures m.Omit? ==> m.toOmit == strToOmit
  {
    if keep then Keep(strToKeep) else Omit(strToOmit)
  }

  /** The string the mode tests each name against. */
  function ModeString(mode: Mode): Option<string>
  {
    match mode
    case Keep(toKeep) => toKeep
    case Omit(toOmit) => toOmit
  }

  /** Python's `sub in s` on strings: sub occurs in s as a contiguous substring. */
  predicate Contains(s: string, sub: string)
  {
    (|sub| <= |s| && s[..|sub|] == sub) || (|s| > 0 && Contains(s[1..], sub))
  }

  /** sub occurs in s starting at index i. */
  predicate OccursAt(s: string, sub: string, i: int)
  {
    0 <= i && i + |sub| <= |s| && s[i..i + |sub|] == sub
  }

  /** The recursive substring test agrees with the existence of an occurrence. */
  lemma {:induction false} ContainsIffOccurs(s: string, sub: string)
    ensures Contains(s, sub) <==> exists i :: OccursAt(s, sub, i)
  {
    if |s| > 0 {
      ContainsIffOccurs(s[1..], sub);
      if Contains(s[1..], sub) {
        var j :| OccursAt(s[1..], sub, j);
        assert s[j + 1..j + 1 + |sub|] == s[1..][j..j + |sub|];
        assert OccursAt(s, sub, j + 1);
      }
      if OccursAt(s, sub, 0) {
        assert s[..|sub|] == s[0..|sub|];
      }
      if i :| OccursAt(s, sub, i) && i > 0 {
        assert s[1..][i - 1..i - 1 + |sub|] == s[i..i + |sub|];
        assert OccursAt(s[1..], sub, i - 1);
      }
    } else if |sub| == 0 {
      assert OccursAt(s, sub, 0);
    }
  }

  /** `needle in k`, raising TypeError when needle is None. */
  function InTest(needle: Option<string>, k: string): (r: Result<bool, FilterError>)
    ensures r.Ok? <==> needle.Some?
    ensures r.Ok? ==> (r.value <==> Contains(k, needle.value))
  {
    match needle
    case None => Err(TypeError)
    case Some(s) => Ok(Contains(k, s))
  }

  /**
   * The filter's lambda on one name k: `conn in k and str_to_keep in k` in Keep mode,
   * `conn in k and str_to_omit not in k` in Omit mode. `and` short-circuits, so the second
   * test, and its TypeError, is only reached when the name contains conn.
   */
  function Matches(k: string, conn: Option<string>, mode: Mode): (r: Result<bool, FilterError>)
    ensures r.Err? <==> conn.None? || (Contains(k, conn.value) && ModeString(mode).None?)
    ensures r == Ok(true) <==> conn.Some? && Contains(k, conn.value) && ModeString(mode).Some?
                               && (Contains(k, ModeString(mode).value) <==> mode.Keep?)
  {
    var c := InTest(conn, k);
    if c.Err? then Err(c.error)
    else if !c.value then Ok(false)
    else match mode
      case Keep(toKeep) => InTest(toKeep, k)
      case Omit(toOmit) =>
        var o := InTest(toOmit, k);
        if o.Err? then Err(o.error) else Ok(!o.value)
  }

  /** a is obtained from b by deleting elements: its order is b's order. */
  predicate IsSubsequence<T(==)>(a: seq<T>, b: seq<T>)
    decreases |b|
  {
    |a| == 0 || (|b| > 0 && ((a[0] == b[0] && IsSubsequence(a[1..], b[1..])) || IsSubsequence(a, b[1..])))
  }

  /**
   * `list(filter(pred, names))`: the names for which the lambda is true, in listing order.
   * It fails as soon as the lambda raises on some name, and only then.
   */
  function FilterNames(names: seq<string>, conn: Option<string>, mode: Mode): (r: Result<seq<string>, FilterError>)
    ensures r.Ok? <==> forall i :: 0 <= i < |names| ==> Matches(names[i], conn, mode).Ok?
    ensures r.Ok? ==> IsSubsequence(r.value, names)
    ensures r.Ok? ==> forall k :: multiset(r.value)[k]
                                  == if Matches(k, conn, mode) == Ok(true) then multiset(names)[k] else 0
  {
    if |names| == 0 then Ok([])
    else
      var m := Matches(names[0], conn, mode);
      var rest := FilterNames(names[1..], conn, mode);
      if m.Err? then Err(m.error)
      else if rest.Err? then Err(rest.error)
      else
        assert names == [names[0]] + names[1..];
        Ok(if m.value then [names[0]] + rest.value else rest.value)
  }

  /**
   * get_fingerprints_from_path_with_cond: the selected names and the volumes loaded from
   * them, position by position. `load` stands for load_fingerprint of the name joined to
   * the directory.
   */
  function GetFingerprintsFromPathWithCond<V>(listing: seq<string>, load: string -> V,
                                              strToOmit: Option<string>, strToKeep: Option<string>,
                                              keep: bool, conn: Option<string>)
    : (r: Result<(seq<string>, seq<V>), FilterError>)
    ensures r.Ok? <==> FilterNames(listing, conn, ModeOf(keep, strToOmit, strToKeep)).Ok?
    ensures r.Ok? ==> r.value.0 == FilterNames(listing, conn, ModeOf(keep, strToOmit, strToKeep)).value
    ensures r.Ok? ==> |r.value.0| == |r.value.1|
                      && forall i :: 0 <= i < |r.value.0| ==> r.value.1[i] == load(r.value.0[i])
  {
    var names := FilterNames(listing, conn, ModeOf(keep, strToOmit, strToKeep));
    if names.Err? then Err(names.error)
    else Ok((names.value, seq(|names.value|, i requires 0 <= i < |names.value| => load(names.value[i]))))
  }

  // ---------------------------------------------------------------------------------

  /**
   * keep = True with str_to_keep given selects exactly the names that contain both conn
   * and str_to_keep; str_to_omit plays no part.
   */
  lemma KeepSelectsExactly<V>(listing: seq<string>, load: string -> V, strToOmit: Option<string>,
                              conn: string, toKeep: string)
    ensures GetFingerprintsFromPathWithCond(listing, load, strToOmit, Some(toKeep), true, Some(conn)).Ok?
    ensures forall k :: k in GetFingerprintsFromPathWithCond(listing, load, strToOmit, Some(toKeep), true, Some(conn)).value.0
                    <==> k in listing && Contains(k, conn) && Contains(k, toKeep)
  {
    var r := FilterNames(listing, Some(conn), ModeOf(true, strToOmit, Some(toKeep)));
    forall k
      ensures k in r.value <==> k in listing && Contains(k, conn) && Contains(k, toKeep)
    {
      assert k in r.value <==> multiset(r.value)[k] > 0;
      assert k in listing <==> multiset(listing)[k] > 0;
    }
  }

  /**
   * keep = False with str_to_omit given selects exactly the names that contain conn and do
   * not contain str_to_omit; str_to_keep plays no part.
   */
  lemma OmitSelectsExactly<V>(listing: seq<string>, load: string -> V, strToKeep: Option<string>,
                              conn: string, toOmit: string)
    ensures GetFingerprintsFromPathWithCond(listing, load, Some(toOmit), strToKeep, false, Some(conn)).Ok?
    ensures forall k :: k in GetFingerprintsFromPathWithCond(listing, load, Some(toOmit), strToKeep, false, Some(conn)).value.0
                    <==> k in listing && Contains(k, conn) && !Contains(k, toOmit)
  {
    var r := FilterNames(listing, Some(conn), ModeOf(false, Some(toOmit), strToKeep));
    forall k
      ensures k in r.value <==> k in listing && Contains(k, conn) && !Contains(k, toOmit)
    {
      assert k in r.value <==> multiset(r.value)[k] > 0;
      assert k in listing <==> multiset(listing)[k] > 0;
    }
  }

  /**
   * With every argument at its default (keep = True, str_to_keep = str_to_omit = None,
   * conn = "_AvgR_Fz.nii") the call raises TypeError exactly when some file name contains
   * conn; otherwise nothing is selected.
   */
  lemma DefaultArgumentsFail<V>(listing: seq<string>, load: string -> V)
    ensures GetFingerprintsFromPathWithCond(listing, load, None, None, true, Some(DefaultConnectivityName)).Err?
        <==> exists i :: 0 <= i < |listing| && Contains(listing[i], DefaultConnectivityName)
    ensures GetFingerprintsFromPathWithCond(listing, load, None, None, true, Some(DefaultConnectivityName)).Ok?
        ==> GetFingerprintsFromPathWithCond(listing, load, None, None, true, Some(DefaultConnectivityName)).value == ([], [])
  {
    var r := FilterNames(listing, Some(DefaultConnectivityName), Keep(None));
    if r.Ok? {
      if |r.value| > 0 {
        assert multiset(r.value)[r.value[0]] > 0;
      }
    }
  }
}

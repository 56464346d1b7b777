/** The derived fields of a Danbooru post: the tag lists by kind, and the id lists stored
    as space-separated text. `None` stands for a field the JSON left null. */
module DanbooruPosts {
  import opened Wrappers
  import opened Text

  /** The space-separated fields of a post that the derived values read. */
  datatype DanbooruPost = DanbooruPost(
    tagString: Option<string>,
    tagStringGeneral: Option<string>,
    tagStringCharacter: Option<string>,
    tagStringCopyright: Option<string>,
    tagStringArtist: Option<string>,
    tagStringMeta: Option<string>,
    childrenIdsString: Option<string>,
    favString: Option<string>,
    poolString: Option<string>)

  /** `TagType`; `Other` is any value of the enumeration's underlying integer that names
      no member. */
  datatype TagType = All | General | Character | Copyright | Artist | Meta | Other(value: int)

  /** The tag string a kind selects. */
  function TagField(p: DanbooruPost, t: TagType): Option<string>
    requires !t.Other?
  {
    match t
    case All => p.tagString
    case General => p.tagStringGeneral
    case Character => p.tagStringCharacter
    case Copyright => p.tagStringCopyright
    case Artist => p.tagStringArtist
    case Meta => p.tagStringMeta
  }

  /** The indexer: the selected tag string split at every space, empty fields kept. An
      unknown kind raises an argument error, and a null tag string a null reference. */
  function Tags(p: DanbooruPost, t: TagType): (r: Result<seq<string>>)
    ensures t.Other? <==> r == Err(Argument("type"))
    ensures !t.Other? && TagField(p, t).None? ==> r == Err(NullReference)
    ensures r.Ok? ==>
      && !t.Other? && TagField(p, t).Some?
      && (forall k :: 0 <= k < |r.value| ==> ' ' !in r.value[k])
      && |r.value| > 0 && Join(r.value, ' ') == TagField(p, t).value
  {
    if t.Other? then Err(Argument("type"))
    else match TagField(p, t)
      case None => Err(NullReference)
      case Some(s) => Ok(Split(s, ' '))
  }

  /** Tags written out with single spaces are read back unchanged. */
  lemma TagsRoundTrip(p: DanbooruPost, t: TagType, tags: seq<string>)
    requires !t.Other?
    requires |tags| > 0 && forall k :: 0 <= k < |tags| ==> ' ' !in tags[k]
    requires TagField(p, t) == Some(Join(tags, ' '))
    ensures Tags(p, t) == Ok(tags)
  {
    SplitJoin(tags, ' ');
  }

  /** Every field is a 32-bit integer. */
  predicate AllParse(fields: seq<string>) {
    forall k :: 0 <= k < |fields| ==> ConvertToInt32(fields[k]).Ok?
  }

  /** `Convert.ToInt32` over the fields, in order; the first field that fails raises. */
  function ParseAll(fields: seq<string>): (r: Result<seq<int>>)
    ensures r.Ok? ==> |r.value| == |fields|
    ensures r.Ok? ==> forall k :: 0 <= k < |fields| ==> ConvertToInt32(fields[k]) == Ok(r.value[k])
    ensures r.Err? ==> exists k :: 0 <= k < |fields| && ConvertToInt32(fields[k]) == Err(r.error)
  {
    if |fields| == 0 then Ok([])
    else
      var head :- ConvertToInt32(fields[0]);
      match ParseAll(fields[1..])
      case Err(e) => Err(e)
      case Ok(rest) => Ok([head] + rest)
  }

  /** The error is that of the first field that is not a 32-bit integer. */
  lemma {:induction false} ParseAllFirstFailure(fields: seq<string>)
    ensures ParseAll(fields).Err? <==> !AllParse(fields)
    ensures ParseAll(fields).Err? ==>
      exists k :: 0 <= k < |fields| && ConvertToInt32(fields[k]) == Err(ParseAll(fields).error) && AllParse(fields[..k])
    decreases |fields|
  {
    if |fields| > 0 {
      var rest := fields[1..];
      var head := ConvertToInt32(fields[0]);
      ParseAllFirstFailure(rest);
      AllParseCons(fields);
      if head.Err? {
        assert ParseAll(fields) == Err(head.error);
        assert AllParse(fields[..0]);
      } else if ParseAll(rest).Err? {
        assert ParseAll(fields) == Err(ParseAll(rest).error);
        FailureAfterHead(fields, ParseAll(rest).error);
      } else {
        assert ParseAll(fields) == Ok([head.value] + ParseAll(rest).value);
      }
    }
  }

  lemma FailureAfterHead(fields: seq<string>, e: Exception)
    requires |fields| > 0 && ConvertToInt32(fields[0]).Ok?
    requires exists k :: 0 <= k < |fields[1..]| && ConvertToInt32(fields[1..][k]) == Err(e) && AllParse(fields[1..][..k])
    ensures exists k :: 0 <= k < |fields| && ConvertToInt32(fields[k]) == Err(e) && AllParse(fields[..k])
  {
    var rest := fields[1..];
    var k :| 0 <= k < |rest| && ConvertToInt32(rest[k]) == Err(e) && AllParse(rest[..k]);
    assert fields[k + 1] == rest[k];
    AllParsePrefix(fields, k);
  }

  lemma AllParseCons(fields: seq<string>)
    requires |fields| > 0
    ensures AllParse(fields) <==> ConvertToInt32(fields[0]).Ok? && AllParse(fields[1..])
  {
    if ConvertToInt32(fields[0]).Ok? && AllParse(fields[1..]) {
      forall k | 0 <= k < |fields| ensures ConvertToInt32(fields[k]).Ok? {
        if k > 0 {
          assert fields[k] == fields[1..][k - 1];
        }
      }
    }
  }

  lemma AllParsePrefix(fields: seq<string>, k: nat)
    requires k + 1 < |fields|
    requires ConvertToInt32(fields[0]).Ok? && AllParse(fields[1..][..k])
    ensures AllParse(fields[..k + 1])
  {
    assert fields[..k + 1] == [fields[0]] + fields[1..][..k];
    AllParseCons(fields[..k + 1]);
    assert fields[..k + 1][1..] == fields[1..][..k];
  }

  /** Each field with every occurrence of `pat` removed, as `Replace(pat, "")` does. */
  function RemoveFromAll(fields: seq<string>, pat: string): (r: seq<string>)
    requires |pat| > 0
    ensures |r| == |fields|
    ensures forall k :: 0 <= k < |fields| ==> r[k] == RemoveAll(fields[k], pat)
  {
    if |fields| == 0 then [] else [RemoveAll(fields[0], pat)] + RemoveFromAll(fields[1..], pat)
  }

  const FavPrefix: string := "fav:"
  const PoolPrefix: string := "pool:"

  /** `ChildrenIds`: empty for a null or blank string, otherwise one integer per
      space-separated field; a field that is not a 32-bit integer raises. */
  function ChildrenIds(p: DanbooruPost): (r: Result<seq<int>>)
    ensures IsNullOrBlank(p.childrenIdsString) ==> r == Ok([])
    ensures r.Ok? && !IsNullOrBlank(p.childrenIdsString) ==>
      && |r.value| == |Split(p.childrenIdsString.value, ' ')| == CountChar(p.childrenIdsString.value, ' ') + 1
      && forall k :: 0 <= k < |r.value| ==> ConvertToInt32(Split(p.childrenIdsString.value, ' ')[k]) == Ok(r.value[k])
    ensures r.Err? ==>
      && !IsNullOrBlank(p.childrenIdsString)
      && exists k :: 0 <= k < |Split(p.childrenIdsString.value, ' ')| &&
                     ConvertToInt32(Split(p.childrenIdsString.value, ' ')[k]) == Err(r.error) &&
                     AllParse(Split(p.childrenIdsString.value, ' ')[..k])
  {
    if IsNullOrBlank(p.childrenIdsString) then Ok([])
    else
      SplitCount(p.childrenIdsString.value, ' ');
      ParseAllFirstFailure(Split(p.childrenIdsString.value, ' '));
      ParseAll(Split(p.childrenIdsString.value, ' '))
  }

  /** `Favorites`: as `ChildrenIds`, with "fav:" removed from each field first. */
  function Favorites(p: DanbooruPost): (r: Result<seq<int>>)
    ensures IsNullOrBlank(p.favString) ==> r == Ok([])
    ensures r.Ok? && !IsNullOrBlank(p.favString) ==>
      && |r.value| == |Split(p.favString.value, ' ')| == CountChar(p.favString.value, ' ') + 1
      && forall k :: 0 <= k < |r.value| ==> ConvertToInt32(RemoveAll(Split(p.favString.value, ' ')[k], FavPrefix)) == Ok(r.value[k])
    ensures r.Err? ==>
      && !IsNullOrBlank(p.favString)
      && exists k :: 0 <= k < |Split(p.favString.value, ' ')| &&
                     ConvertToInt32(RemoveAll(Split(p.favString.value, ' ')[k], FavPrefix)) == Err(r.error) &&
                     AllParse(RemoveFromAll(Split(p.favString.value, ' '), FavPrefix)[..k])
  {
    if IsNullOrBlank(p.favString) then Ok([])
    else
      SplitCount(p.favString.value, ' ');
      ParseAllFirstFailure(RemoveFromAll(Split(p.favString.value, ' '), FavPrefix));
      ParseAll(RemoveFromAll(Split(p.favString.value, ' '), FavPrefix))
  }

  /** `Pools`: empty for a null or blank string, otherwise one name per space-separated
      field, with "pool:" removed; there are as many as spaces plus one. */
  function Pools(p: DanbooruPost): (r: seq<string>)
    ensures IsNullOrBlank(p.poolString) ==> r == []
    ensures !IsNullOrBlank(p.poolString) ==>
      && |r| == |Split(p.poolString.value, ' ')| == CountChar(p.poolString.value, ' ') + 1
      && forall k :: 0 <= k < |r| ==> r[k] == RemoveAll(Split(p.poolString.value, ' ')[k], PoolPrefix)
  {
    if IsNullOrBlank(p.poolString) then []
    else
      SplitCount(p.poolString.value, ' ');
      RemoveFromAll(Split(p.poolString.value, ' '), PoolPrefix)
  }

  // ---------------------------------------------------------------------------
  // Round trips

  /** The decimal renderings of some integers. */
  function Rendered(ids: seq<int>): (r: seq<string>)
    ensures |r| == |ids|
    ensures forall k :: 0 <= k < |ids| ==> r[k] == IntToString(ids[k])
  {
    if |ids| == 0 then [] else [IntToString(ids[0])] + Rendered(ids[1..])
  }

  /** Each string with `prefix` put in front. */
  function Prefixed(prefix: string, fields: seq<string>): (r: seq<string>)
    ensures |r| == |fields|
    ensures forall k :: 0 <= k < |fields| ==> r[k] == prefix + fields[k]
  {
    if |fields| == 0 then [] else [prefix + fields[0]] + Prefixed(prefix, fields[1..])
  }

  predicate SignedDigit(c: char) {
    IsDigit(c) || c == '-'
  }

  lemma {:induction false} ParseAllRendered(ids: seq<int>)
    requires forall k :: 0 <= k < |ids| ==> IsInt32(ids[k])
    ensures ParseAll(Rendered(ids)) == Ok(ids)
    decreases |ids|
  {
    if |ids| > 0 {
      ParseOfIntToString(ids[0]);
      ParseAllRendered(ids[1..]);
      assert Rendered(ids)[1..] == Rendered(ids[1..]);
      assert [ids[0]] + ids[1..] == ids;
    }
  }

  lemma SignedNotWhite(c: char)
    requires SignedDigit(c)
    ensures !IsWhiteSpace(c)
  {
  }

  lemma PrefixedNotBlank(prefix: string, rest: seq<string>)
    requires prefix == FavPrefix || prefix == PoolPrefix
    requires |rest| > 0
    ensures !IsBlank(Join(Prefixed(prefix, rest), ' '))
  {
    var fields := Prefixed(prefix, rest);
    assert fields[0] == prefix + rest[0];
    assert !IsWhiteSpace(fields[0][0]);
    JoinNotBlank(fields);
  }

  /** A joined list whose first field starts with a character other than white space is
      not blank. */
  lemma JoinNotBlank(fields: seq<string>)
    requires |fields| > 0 && |fields[0]| > 0 && !IsWhiteSpace(fields[0][0])
    ensures !IsBlank(Join(fields, ' '))
  {
    var s := Join(fields, ' ');
    if |fields| > 1 {
      assert s == fields[0] + ([' '] + Join(fields[1..], ' '));
    }
    assert s[0] == fields[0][0];
  }

  /** A rendered integer holds no space, and neither does it with a prefix that has none. */
  lemma RenderedSpaceFree(ids: seq<int>, prefix: string)
    requires ' ' !in prefix
    ensures forall k :: 0 <= k < |ids| ==> ' ' !in Rendered(ids)[k] && ' ' !in Prefixed(prefix, Rendered(ids))[k]
  {
    var rendered := Rendered(ids);
    forall k | 0 <= k < |ids|
      ensures ' ' !in rendered[k] && ' ' !in Prefixed(prefix, rendered)[k]
    {
      var t := IntToString(ids[k]);
      assert forall j :: 0 <= j < |t| ==> SignedDigit(t[j]);
      assert ' ' !in t;
    }
  }

  /** Children ids written out with single spaces are read back unchanged. */
  lemma ChildrenIdsRoundTrip(p: DanbooruPost, ids: seq<int>)
    requires |ids| > 0 && forall k :: 0 <= k < |ids| ==> IsInt32(ids[k])
    requires p.childrenIdsString == Some(Join(Rendered(ids), ' '))
    ensures ChildrenIds(p) == Ok(ids)
  {
    var fields := Rendered(ids);
    SignedNotWhite(IntToString(ids[0])[0]);
    JoinNotBlank(fields);
    RenderedSpaceFree(ids, "");
    SplitJoin(fields, ' ');
    ParseAllRendered(ids);
  }

  /** Removing a prefix pattern from a field that starts with it, and holds it nowhere
      else, leaves the rest. */
  lemma RemovePrefix(pat: string, rest: string)
    requires |pat| > 0
    requires forall i :: 0 <= i < |rest| ==> !MatchesAt(rest, i, pat)
    ensures RemoveAll(pat + rest, pat) == rest
  {
    assert (pat + rest)[|pat|..] == rest;
    RemoveAllFree(rest, pat);
  }

  lemma NoPatternInSigned(s: string, pat: string)
    requires |pat| > 0 && !SignedDigit(pat[0])
    requires forall j :: 0 <= j < |s| ==> SignedDigit(s[j])
    ensures forall i :: 0 <= i < |s| ==> !MatchesAt(s, i, pat)
  {
    forall i | 0 <= i < |s|
      ensures !MatchesAt(s, i, pat)
    {
      assert SignedDigit(s[i]);
      if i + |pat| <= |s| {
        assert s[i..i + |pat|][0] == s[i];
      }
    }
  }

  lemma FavPrefixRemoved(ids: seq<int>)
    ensures RemoveFromAll(Prefixed(FavPrefix, Rendered(ids)), FavPrefix) == Rendered(ids)
  {
    var rendered := Rendered(ids);
    forall k | 0 <= k < |ids|
      ensures RemoveAll(Prefixed(FavPrefix, rendered)[k], FavPrefix) == rendered[k]
    {
      var t := IntToString(ids[k]);
      assert forall j :: 0 <= j < |t| ==> SignedDigit(t[j]);
      NoPatternInSigned(t, FavPrefix);
      RemovePrefix(FavPrefix, t);
    }
  }

  /** Favourites written as "fav:<id>" with single spaces are read back unchanged. */
  lemma FavoritesRoundTrip(p: DanbooruPost, ids: seq<int>)
    requires |ids| > 0 && forall k :: 0 <= k < |ids| ==> IsInt32(ids[k])
    requires p.favString == Some(Join(Prefixed(FavPrefix, Rendered(ids)), ' '))
    ensures Favorites(p) == Ok(ids)
  {
    FavoritesSplit(ids);
    ParseAllRendered(ids);
    FavoritesOf(p, Prefixed(FavPrefix, Rendered(ids)), Rendered(ids), ids);
  }

  lemma FavoritesSplit(ids: seq<int>)
    requires |ids| > 0
    ensures var fields := Prefixed(FavPrefix, Rendered(ids));
      && !IsBlank(Join(fields, ' '))
      && Split(Join(fields, ' '), ' ') == fields
      && RemoveFromAll(fields, FavPrefix) == Rendered(ids)
  {
    PrefixedNotBlank(FavPrefix, Rendered(ids));
    FavoritesFields(ids);
    FavPrefixRemoved(ids);
  }

  lemma FavoritesFields(ids: seq<int>)
    requires |ids| > 0
    ensures Split(Join(Prefixed(FavPrefix, Rendered(ids)), ' '), ' ') == Prefixed(FavPrefix, Rendered(ids))
  {
    RenderedSpaceFree(ids, FavPrefix);
    SplitJoin(Prefixed(FavPrefix, Rendered(ids)), ' ');
  }

  lemma FavoritesOf(p: DanbooruPost, fields: seq<string>, rendered: seq<string>, ids: seq<int>)
    requires p.favString.Some? && !IsBlank(p.favString.value)
    requires Split(p.favString.value, ' ') == fields
    requires RemoveFromAll(fields, FavPrefix) == rendered
    requires ParseAll(rendered) == Ok(ids)
    ensures Favorites(p) == Ok(ids)
  {
  }

  /** Pool names written as "pool:<name>" with single spaces are read back unchanged, for
      names that hold no space and no "pool:". */
  lemma PoolsRoundTrip(p: DanbooruPost, names: seq<string>)
    requires |names| > 0
    requires forall k :: 0 <= k < |names| ==> ' ' !in names[k] && IndexOf(names[k], PoolPrefix) == -1
    requires p.poolString == Some(Join(Prefixed(PoolPrefix, names), ' '))
    ensures Pools(p) == names
  {
    var fields := Prefixed(PoolPrefix, names);
    PrefixedNotBlank(PoolPrefix, names);
    PoolsSplit(names);
    PoolsOf(p, fields, names);
  }

  lemma PoolsSplit(names: seq<string>)
    requires |names| > 0
    requires forall k :: 0 <= k < |names| ==> ' ' !in names[k] && IndexOf(names[k], PoolPrefix) == -1
    ensures var fields := Prefixed(PoolPrefix, names);
      && Split(Join(fields, ' '), ' ') == fields
      && RemoveFromAll(fields, PoolPrefix) == names
  {
    var fields := Prefixed(PoolPrefix, names);
    forall k | 0 <= k < |fields|
      ensures ' ' !in fields[k]
      ensures RemoveAll(fields[k], PoolPrefix) == names[k]
    {
      assert fields[k] == PoolPrefix + names[k];
      RemovePrefix(PoolPrefix, names[k]);
    }
    SplitJoin(fields, ' ');
  }

  lemma PoolsOf(p: DanbooruPost, fields: seq<string>, names: seq<string>)
    requires p.poolString.Some? && !IsBlank(p.poolString.value)
    requires Split(p.poolString.value, ' ') == fields
    requires RemoveFromAll(fields, PoolPrefix) == names
    ensures Pools(p) == names
  {
  }
}

/** The Post schema (server/models/Post.js): the document's fields and their
    defaults, the setters that normalise strings, the validators that save()
    runs, and the pre('save') hook that derives the excerpt from the content. */
module PostSchema {
  import opened JsBuiltins
  import opened Identity

  type PostId = nat

  const TitleMaxLength := 200
  const ExcerptMaxLength := 300
  const ExcerptSourceLength := 150
  const Ellipsis := "..."

  /** A post document. An absent excerpt is the empty string: both are falsy
      to the pre-save hook. */
  datatype Post = Post(
    id: PostId,
    title: string,
    content: string,
    excerpt: string,
    author: UserId,
    tags: seq<string>,
    featuredImage: string,
    published: bool,
    likes: nat,
    views: nat,
    createdAt: int)

  /** The fields handed to Post.create; None is a field left undefined, so
      that the schema default applies. */
  datatype NewFields = NewFields(
    title: Option<string>,
    content: Option<string>,
    author: UserId,
    tags: Option<seq<string>>,
    featuredImage: Option<string>,
    published: Option<bool>)

  // ---------------------------------------------------------------------------
  // Setters
  // ---------------------------------------------------------------------------

  /** The title's setter (`trim: true`). */
  function SetTitle(t: string): (r: string)
    ensures Trimmed(r) && |r| <= |t|
  {
    Trim(t)
  }

  /** A tag as the schema keeps it: trimmed and in lower case. */
  predicate NormalisedTag(t: string) {
    Trimmed(t) && IsLower(t)
  }

  /** A tag's setters (`trim: true, lowercase: true`). The two commute
      (JsBuiltins.TrimToLower), so their order does not matter. */
  function SetTag(t: string): (r: string)
    ensures NormalisedTag(r)
  {
    TrimToLower(t);
    ToLowerIsLower(Trim(t));
    ToLower(Trim(t))
  }

  /** The tag setter changes nothing but case and white space at the ends:
      the lower-cased input is the stored tag with blanks around it. */
  lemma SetTagContent(t: string)
    ensures exists a, b :: ToLower(t) == a + SetTag(t) + b && AllBlank(a) && AllBlank(b)
  {
    TrimToLower(t);
    TrimContent(ToLower(t));
  }

  /** The tag setter leaves a tag unchanged exactly when it is already
      normalised; so it is idempotent. */
  lemma SetTagFixpoints(t: string)
    ensures SetTag(t) == t <==> NormalisedTag(t)
    ensures SetTag(SetTag(t)) == SetTag(t)
  {
    if NormalisedTag(t) {
      ToLowerOfLower(t);
    }
    var r := SetTag(t);
    ToLowerOfLower(r);
  }

  function SetTags(ts: seq<string>): (r: seq<string>)
    ensures |r| == |ts|
    ensures forall i :: 0 <= i < |ts| ==> r[i] == SetTag(ts[i])
  {
    seq(|ts|, i requires 0 <= i < |ts| => SetTag(ts[i]))
  }

  predicate NormalisedTags(ts: seq<string>) {
    forall i :: 0 <= i < |ts| ==> NormalisedTag(ts[i])
  }

  lemma SetTagsOfNormalised(ts: seq<string>)
    requires NormalisedTags(ts)
    ensures SetTags(ts) == ts
  {
    forall i | 0 <= i < |ts| ensures SetTags(ts)[i] == ts[i] {
      SetTagFixpoints(ts[i]);
    }
  }

  // ---------------------------------------------------------------------------
  // Defaults
  // ---------------------------------------------------------------------------

  /** The document Post.create builds before saving it: setters applied,
      defaults filled in, counters at zero, no excerpt yet. */
  function NewDocument(id: PostId, f: NewFields, createdAt: int): (p: Post)
    ensures p.id == id && p.author == f.author && p.createdAt == createdAt
    ensures p.likes == 0 && p.views == 0 && p.excerpt == ""
    ensures p.title == SetTitle(f.title.GetOr("")) && p.content == f.content.GetOr("")
    ensures f.tags.None? ==> p.tags == []
    ensures f.tags.Some? ==> p.tags == SetTags(f.tags.value)
    ensures f.featuredImage.None? ==> p.featuredImage == ""
    ensures f.featuredImage.Some? ==> p.featuredImage == f.featuredImage.value
    ensures f.published.None? ==> p.published
    ensures f.published.Some? ==> p.published == f.published.value
    ensures NormalisedTags(p.tags)
  {
    Post(
      id := id,
      title := SetTitle(f.title.GetOr("")),
      content := f.content.GetOr(""),
      excerpt := "",
      author := f.author,
      tags := SetTags(f.tags.GetOr([])),
      featuredImage := f.featuredImage.GetOr(""),
      published := f.published.GetOr(true),
      likes := 0,
      views := 0,
      createdAt := createdAt)
  }

  // ---------------------------------------------------------------------------
  // Validators
  // ---------------------------------------------------------------------------

  /** The schema validators: title required (so non-empty once trimmed) and at
      most 200 characters, content required, excerpt at most 300 characters. */
  predicate Valid(p: Post)
    ensures Valid(p) ==> p.title != "" && p.content != ""
    ensures Valid(p) ==> |p.title| <= TitleMaxLength && |p.excerpt| <= ExcerptMaxLength
  {
    1 <= |p.title| <= TitleMaxLength && |p.content| >= 1 && |p.excerpt| <= ExcerptMaxLength
  }

  // ---------------------------------------------------------------------------
  // The pre('save') hook
  // ---------------------------------------------------------------------------

  /** s[i..j+1] is a match of /<[^>]+>/: '<', at least one character other
      than '>', then '>'. */
  predicate TagAt(s: string, i: nat, j: nat) {
    i + 2 <= j < |s| && s[i] == '<' && s[j] == '>' && forall k :: i < k < j ==> s[k] != '>'
  }

  predicate TagFree(s: string) {
    forall i: nat, j: nat | i < j < |s| :: !TagAt(s, i, j)
  }

  /** The length of the match of /<[^>]+>/ at the front of s, if there is one. */
  function TagMatch(s: string): (n: Option<nat>)
    ensures n.Some? ==> 3 <= n.value <= |s| && TagAt(s, 0, n.value - 1)
    ensures n.None? ==> forall j: nat :: !TagAt(s, 0, j)
  {
    if s == [] || s[0] != '<' then None
    else
      match IndexOfChar(s[1..], '>')
      case None => assert forall k :: 1 <= k < |s| ==> s[k] == s[1..][k - 1]; None
      case Some(k) =>
        assert forall m :: 1 <= m <= k ==> s[m] == s[1..][..k][m - 1];
        if k == 0 then None else Some(k + 2)
  }

  /** content.replace(/<[^>]+>/g, ''): scanning from the left, each match is
      removed and every other character is kept. */
  function StripTags(s: string): (r: string)
    ensures |r| <= |s|
    ensures forall c :: c in r ==> c in s
    decreases |s|
  {
    if s == [] then []
    else
      match TagMatch(s)
      case Some(n) => StripTags(s[n..])
      case None => [s[0]] + StripTags(s[1..])
  }

  lemma TagFreeCons(c: char, rest: string)
    requires TagFree(rest)
    requires c == '<' ==> (rest != [] && rest[0] == '>') || '>' !in rest
    ensures TagFree([c] + rest)
  {
    var t := [c] + rest;
    forall i: nat, j: nat ensures !TagAt(t, i, j) {
      if i >= 1 && i + 2 <= j < |t| {
        assert forall k :: i - 1 < k < j - 1 ==> rest[k] == t[k + 1];
        assert t[i] == rest[i - 1] && t[j] == rest[j - 1];
        assert !TagAt(rest, i - 1, j - 1);
      } else if i == 0 && 2 <= j < |t| && rest[0] == '>' {
        assert t[1] == '>';
      } else if i == 0 && 2 <= j < |t| {
        assert t[0] == c && t[j] == rest[j - 1] && rest[j - 1] in rest;
      }
    }
  }

  /** No match of /<[^>]+>/ survives the replacement. */
  lemma {:induction false} StripTagsTagFree(s: string)
    ensures TagFree(StripTags(s))
    decreases |s|
  {
    if s != [] {
      match TagMatch(s)
      case Some(n) =>
        StripTagsTagFree(s[n..]);
      case None =>
        StripTagsTagFree(s[1..]);
        var rest := StripTags(s[1..]);
        if s[0] == '<' && '>' in rest {
          assert '>' in s[1..];
          assert s[1] == '>' by {
            var k := IndexOfChar(s[1..], '>');
            assert k.Some? && k.value == 0;
          }
          assert TagMatch(s[1..]).None?;
        }
        TagFreeCons(s[0], rest);
    }
  }

  lemma TagFreeSuffix(s: string, n: nat)
    requires TagFree(s) && n <= |s|
    ensures TagFree(s[n..])
  {
    var t := s[n..];
    forall i: nat, j: nat ensures !TagAt(t, i, j) {
      assert !TagAt(s, i + n, j + n);
      assert j < |t| ==> forall k :: i < k < j ==> t[k] == s[k + n];
    }
  }

  lemma TagFreePrefix(s: string, n: nat)
    requires TagFree(s) && n <= |s|
    ensures TagFree(s[..n])
  {
    var t := s[..n];
    forall i: nat, j: nat ensures !TagAt(t, i, j) {
      assert !TagAt(s, i, j);
    }
  }

  lemma TagFreeEllipsis(s: string)
    requires TagFree(s)
    ensures TagFree(s + Ellipsis)
  {
    var t := s + Ellipsis;
    assert forall k :: 0 <= k < |s| ==> t[k] == s[k];
    forall i: nat, j: nat ensures !TagAt(t, i, j) {
      assert !TagAt(s, i, j);
      assert |s| <= j < |t| ==> t[j] == '.';
    }
  }

  /** Markup-free text passes through the replacement unchanged; in particular
      stripping twice is stripping once. */
  lemma {:induction false} StripTagsOfTagFree(s: string)
    requires TagFree(s)
    ensures StripTags(s) == s
    decreases |s|
  {
    if s != [] {
      assert TagMatch(s).None?;
      TagFreeSuffix(s, 1);
      StripTagsOfTagFree(s[1..]);
    }
  }

  lemma StripTagsIdempotent(s: string)
    ensures StripTags(StripTags(s)) == StripTags(s)
  {
    StripTagsTagFree(s);
    StripTagsOfTagFree(StripTags(s));
  }

  /** Text before the first '<' is kept as it is. */
  lemma {:induction false} StripTagsKeepsText(a: string, s: string)
    requires '<' !in a
    ensures StripTags(a + s) == a + StripTags(s)
    decreases |a|
  {
    if a == [] {
      assert a + s == s;
    } else {
      var t := a + s;
      assert t[0] == a[0] && t[1..] == a[1..] + s;
      StripTagsKeepsText(a[1..], s);
      assert a == [a[0]] + a[1..];
    }
  }

  /** A match at the front is removed, and stripping goes on after it. */
  lemma StripTagsDropsTag(x: string, s: string)
    requires x != [] && '>' !in x
    ensures StripTags("<" + x + ">" + s) == StripTags(s)
  {
    var t := "<" + x + ">" + s;
    assert t[1..] == x + ">" + s;
    assert t[1..][..|x|] == x;
    IndexOfCharAt(t[1..], '>', |x|);
    assert t[|x| + 2..] == s;
  }

  /** For instance, "a<b>c" becomes "ac". */
  lemma StripTagsExample()
    ensures StripTags("a<b>c") == "ac"
  {
    assert "a<b>c" == "a" + ("<" + "b" + ">" + "c");
    StripTagsKeepsText("a", "<" + "b" + ">" + "c");
    StripTagsDropsTag("b", "c");
    StripTagsKeepsText("c", "");
    assert "c" + "" == "c";
  }

  /** `content.replace(/<[^>]+>/g, '').substring(0, 150) + '...'` */
  function GenerateExcerpt(content: string): (e: string)
    ensures |e| == Min(|StripTags(content)|, ExcerptSourceLength) + |Ellipsis|
    ensures e == StripTags(content)[..|e| - |Ellipsis|] + Ellipsis
    ensures |e| <= ExcerptSourceLength + |Ellipsis| && e != ""
  {
    var stripped := StripTags(content);
    stripped[..Min(|stripped|, ExcerptSourceLength)] + Ellipsis
  }

  /** The generated excerpt holds no markup tag. */
  lemma ExcerptTagFree(content: string)
    ensures TagFree(GenerateExcerpt(content))
  {
    var stripped := StripTags(content);
    StripTagsTagFree(content);
    TagFreePrefix(stripped, Min(|stripped|, ExcerptSourceLength));
    TagFreeEllipsis(stripped[..Min(|stripped|, ExcerptSourceLength)]);
  }

  /** The pre('save') hook: an excerpt is derived only when there is none and
      the content is non-empty. */
  function PreSave(p: Post): (q: Post)
    ensures q == p.(excerpt := q.excerpt)
    ensures p.excerpt != "" ==> q == p
    ensures p.excerpt == "" && p.content != "" ==> q.excerpt == GenerateExcerpt(p.content)
    ensures p.content == "" ==> q == p
  {
    if p.excerpt == "" && p.content != "" then p.(excerpt := GenerateExcerpt(p.content)) else p
  }

  /** A second save leaves the excerpt alone. */
  lemma PreSaveIdempotent(p: Post)
    ensures PreSave(PreSave(p)) == PreSave(p)
  {
  }

  /** Once a document has an excerpt, editing its content does not refresh it. */
  lemma ExcerptSurvivesContentEdit(p: Post, content: string)
    requires p.excerpt != ""
    ensures PreSave(p.(content := content)).excerpt == p.excerpt
  {
  }

  /** document.save(): the validators run first (pre('validate') comes before
      pre('save')), then the hook; a failed validation saves nothing. */
  function Save(p: Post): (r: Option<Post>)
    ensures r.Some? <==> Valid(p)
    ensures r.Some? ==> r.value == PreSave(p)
  {
    if Valid(p) then Some(PreSave(p)) else None
  }

  /** What every document in the collection satisfies: it passed validation,
      went through the hook and through the setters. */
  predicate Stored(p: Post) {
    Valid(p) && p.excerpt != "" && Trimmed(p.title) && NormalisedTags(p.tags)
  }

  /** Saving a document that went through the setters stores a document of
      that shape. */
  lemma SaveStores(p: Post)
    requires Save(p).Some? && Trimmed(p.title) && NormalisedTags(p.tags)
    ensures Stored(Save(p).value)
  {
  }

  /** Saving a stored document changes nothing. */
  lemma SaveOfStored(p: Post)
    requires Stored(p)
    ensures Save(p) == Some(p)
  {
  }
}

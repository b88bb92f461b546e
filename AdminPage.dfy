/** The admin page (client/src/pages/Admin.js): the post table's state and
    its updates on delete, edit and save, and the editor's form with the tag
    field written as `join(', ')` and read back by splitting on commas. */
module AdminPage {
  import opened JsBuiltins
  import opened Http
  import opened PostSchema
  import PostController

  // ---------------------------------------------------------------------------
  // The tag field
  // ---------------------------------------------------------------------------

  function TrimAll(parts: seq<string>): (r: seq<string>)
    ensures |r| == |parts|
    ensures forall i :: 0 <= i < |parts| ==> r[i] == Trim(parts[i])
  {
    if parts == [] then [] else [Trim(parts[0])] + TrimAll(parts[1..])
  }

  /** `.filter(tag => tag)`: the empty strings are dropped, the rest kept in
      order. */
  function DropEmpty(parts: seq<string>): (r: seq<string>)
    ensures forall t :: t in r <==> t in parts && t != ""
    ensures (forall i :: 0 <= i < |parts| ==> parts[i] != "") ==> r == parts
    ensures |r| <= |parts|
  {
    if parts == [] then []
    else (if parts[0] == "" then [] else [parts[0]]) + DropEmpty(parts[1..])
  }

  /** A tag the tag field can hold: non-empty, trimmed, without a comma. */
  predicate CleanTag(t: string) {
    t != "" && Trimmed(t) && ',' !in t
  }

  /** `tags.split(',').map(tag => tag.trim()).filter(tag => tag)`: no parsed
      tag is empty, padded with white space, or holds a comma. */
  function ParseTags(s: string): (tags: seq<string>)
    ensures forall i {:trigger CleanTag(tags[i])} :: 0 <= i < |tags| ==> CleanTag(tags[i])
  {
    var trimmed := TrimAll(Split(s, ','));
    TrimmedPieces(Split(s, ','));
    var tags := DropEmpty(trimmed);
    assert forall i :: 0 <= i < |tags| ==> tags[i] in trimmed && tags[i] != "" by {
      forall i | 0 <= i < |tags| ensures tags[i] in trimmed && tags[i] != "" {
        assert tags[i] in tags;
      }
    }
    tags
  }

  /** Trimming comma-free pieces gives trimmed comma-free pieces. */
  lemma TrimmedPieces(pieces: seq<string>)
    requires forall i :: 0 <= i < |pieces| ==> ',' !in pieces[i]
    ensures forall t :: t in TrimAll(pieces) ==> Trimmed(t) && ',' !in t
  {
    var trimmed := TrimAll(pieces);
    forall t | t in trimmed ensures Trimmed(t) && ',' !in t {
      var i :| 0 <= i < |trimmed| && trimmed[i] == t;
      TrimSubstring(pieces[i]);
    }
  }

  /** The characters of a trimmed string all come from the string. */
  lemma TrimSubstring(s: string)
    ensures forall c :: c in Trim(s) ==> c in s
  {
    var t := TrimStart(s);
    assert forall c :: c in t ==> c in s by {
      forall c | c in t ensures c in s {
        var i :| 0 <= i < |t| && t[i] == c;
        assert t[i] == s[|s| - |t| + i];
      }
    }
    var r := TrimEnd(t);
    assert forall c :: c in r ==> c in t by {
      forall c | c in r ensures c in t {
        var i :| 0 <= i < |r| && r[i] == c;
        assert r[i] == t[i];
      }
    }
  }

  /** The editor shows the tags as `tags.join(', ')`. */
  function TagField(tags: seq<string>): (f: string)
    ensures tags == [] ==> f == ""
    ensures |tags| == 1 ==> f == tags[0]
  {
    Join(tags, ", ")
  }

  lemma DropEmptyCons(a: string, r: seq<string>)
    ensures DropEmpty([a] + r) == (if a == "" then [] else [a]) + DropEmpty(r)
  {
    assert ([a] + r)[1..] == r;
  }

  /** The filter keeps every non-empty piece as often as it occurs, and
      drops every empty one. */
  lemma {:induction false} DropEmptyCounts(parts: seq<string>)
    ensures multiset(DropEmpty(parts)) == multiset(parts)["" := 0]
    decreases |parts|
  {
    if parts != [] {
      DropEmptyCounts(parts[1..]);
      assert parts == [parts[0]] + parts[1..];
      assert multiset(parts) == multiset{parts[0]} + multiset(parts[1..]);
    }
  }

  lemma TrimPadded(pre: string, t: string)
    requires pre == "" || pre == " "
    requires Trimmed(t)
    ensures Trim(pre + t) == t
  {
    if pre == " " {
      TrimLeadingSpace(' ', t);
      assert pre + t == [' '] + t;
    }
  }

  lemma ParseBlankField(pre: string)
    requires pre == "" || pre == " "
    ensures ParseTags(pre) == []
  {
    assert Split(pre, ',') == [pre];
    assert Trim(pre) == "" by {
      if pre == " " {
        TrimLeadingSpace(' ', "");
        assert pre == [' '] + "";
      }
    }
    assert TrimAll([pre]) == [""];
    DropEmptyCons("", []);
  }

  lemma ParseOneTag(pre: string, t: string)
    requires pre == "" || pre == " "
    requires CleanTag(t)
    ensures ParseTags(pre + t) == [t]
  {
    NoCommaPadded(pre, t);
    TrimPadded(pre, t);
    ParseSingle(pre + t, t);
  }

  /** A field without commas holds the one tag its trimmed text is. */
  lemma ParseSingle(s: string, t: string)
    requires ',' !in s && Trim(s) == t && t != ""
    ensures ParseTags(s) == [t]
  {
    SplitWhole(s, ',');
    TrimAllCons(s, []);
    DropEmptyCons(t, []);
    calc {
      ParseTags(s);
      DropEmpty(TrimAll([s]));
      DropEmpty([t] + TrimAll([]));
      [t];
    }
  }

  lemma NoCommaPadded(pre: string, t: string)
    requires pre == "" || pre == " "
    requires ',' !in t
    ensures ',' !in pre + t
  {
    if pre == " " {
      assert pre + t == [' '] + t;
    }
  }

  lemma TrimAllCons(a: string, pieces: seq<string>)
    ensures TrimAll([a] + pieces) == [Trim(a)] + TrimAll(pieces)
  {
    assert ([a] + pieces)[1..] == pieces;
  }

  lemma SplitTagThenRest(pre: string, t: string, rest: string)
    requires ',' !in pre && ',' !in t
    ensures Split(pre + (t + ", " + rest), ',') == [pre + t] + Split(" " + rest, ',')
  {
    var a := pre + t;
    assert pre + (t + ", " + rest) == a + [','] + (" " + rest);
    SplitAtSeparator(a, ',', " " + rest);
  }

  lemma CleanCons(a: string, pieces: seq<string>)
    requires Trim(a) != ""
    ensures DropEmpty(TrimAll([a] + pieces)) == [Trim(a)] + DropEmpty(TrimAll(pieces))
  {
    TrimAllCons(a, pieces);
    DropEmptyCons(Trim(a), TrimAll(pieces));
  }

  /** The first tag and its separator: `t, rest` reads as t and then rest
      with its leading space. */
  lemma ParseTagThenRest(pre: string, t: string, rest: string)
    requires pre == "" || pre == " "
    requires CleanTag(t)
    ensures ParseTags(pre + (t + ", " + rest)) == [t] + ParseTags(" " + rest)
  {
    SplitTagThenRest(pre, t, rest);
    TrimPadded(pre, t);
    CleanCons(pre + t, Split(" " + rest, ','));
  }

  lemma TagFieldCons(tags: seq<string>, pre: string)
    requires |tags| >= 2
    ensures pre + TagField(tags) == pre + (tags[0] + ", " + TagField(tags[1..]))
  {
  }

  /** The inductive step: a field of two or more tags reads as its first tag
      followed by the rest of the field. */
  lemma ParseFieldStep(first: string, tail: seq<string>, pre: string)
    requires pre == "" || pre == " "
    requires |tail| >= 1 && CleanTag(first)
    requires ParseTags(" " + TagField(tail)) == tail
    ensures ParseTags(pre + TagField([first] + tail)) == [first] + tail
  {
    var tags := [first] + tail;
    assert tags[0] == first && tags[1..] == tail;
    TagFieldCons(tags, pre);
    ParseJoinedStep(pre, first, TagField(tail), pre + TagField(tags), tail);
  }

  lemma ParseJoinedStep(pre: string, first: string, rest: string, field: string, tail: seq<string>)
    requires pre == "" || pre == " "
    requires CleanTag(first) && field == pre + (first + ", " + rest)
    requires ParseTags(" " + rest) == tail
    ensures ParseTags(field) == [first] + tail
  {
    ParseTagThenRest(pre, first, rest);
  }

  /** Reading back what `join(', ')` wrote, after an optional leading space. */
  lemma {:induction false} ParsePaddedField(tags: seq<string>, pre: string)
    requires pre == "" || pre == " "
    requires forall i :: 0 <= i < |tags| ==> CleanTag(tags[i])
    ensures ParseTags(pre + TagField(tags)) == tags
    decreases |tags|
  {
    if tags == [] {
      ParseBlankField(pre);
    } else if |tags| == 1 {
      ParseOneTag(pre, tags[0]);
    } else {
      var first, tail := tags[0], tags[1..];
      assert forall i :: 0 <= i < |tail| ==> CleanTag(tail[i]) by {
        forall i | 0 <= i < |tail| ensures CleanTag(tail[i]) {
          assert tail[i] == tags[i + 1];
        }
      }
      ParsePaddedField(tail, " ");
      ParseFieldStep(first, tail, pre);
      assert [first] + tail == tags;
    }
  }

  /** The tag field round-trips: for non-empty, trimmed, comma-free tags,
      parsing `tags.join(', ')` gives back the same list. */
  lemma ParseTagField(tags: seq<string>)
    requires forall i :: 0 <= i < |tags| ==> CleanTag(tags[i])
    ensures ParseTags(TagField(tags)) == tags
  {
    ParsePaddedField(tags, "");
    assert "" + TagField(tags) == TagField(tags);
  }

  // ---------------------------------------------------------------------------
  // The editor form and its payload
  // ---------------------------------------------------------------------------

  datatype Form = Form(title: string, content: string, tags: string, featuredImage: string)

  /** The form's initial state: the edited post's fields, or empty fields for
      a new post. */
  function InitialForm(post: Option<Post>): (f: Form)
    ensures post.None? ==> f == Form("", "", "", "")
    ensures post.Some? ==>
      f == Form(post.value.title, post.value.content, TagField(post.value.tags), post.value.featuredImage)
  {
    match post
    case None => Form("", "", "", "")
    case Some(p) => Form(OrElse(Some(p.title), ""), OrElse(Some(p.content), ""),
                         OrElse(Some(TagField(p.tags)), ""), OrElse(Some(p.featuredImage), ""))
  }

  /** handleSubmit's payload: the form with its tags parsed. There is no
      `published` field. */
  function SubmitBody(f: Form): (b: Body)
    ensures b.published.None?
    ensures b.title == Some(f.title) && b.content == Some(f.content) && b.featuredImage == Some(f.featuredImage)
    ensures b.tags == Some(ParseTags(f.tags))
  {
    Body(Some(f.title), Some(f.content), Some(ParseTags(f.tags)), Some(f.featuredImage), None, None, None, None)
  }

  /** A post created from the editor is a draft, and one saved from the editor
      keeps its published flag. */
  lemma EditorPublishedFlag(f: Form, id: PostId, author: nat, now: int, p: Post)
    ensures PostController.CreatedPost(id, SubmitBody(f), author, now).Some? ==>
      !PostController.CreatedPost(id, SubmitBody(f), author, now).value.published
    ensures PostController.Updated(p, SubmitBody(f)).published == p.published
  {
  }

  /** Opening the editor on a post and saving untouched sends back its tags,
      when they hold no empty tag and no comma. */
  lemma EditorKeepsTags(p: Post)
    requires NormalisedTags(p.tags)
    requires forall i :: 0 <= i < |p.tags| ==> p.tags[i] != "" && ',' !in p.tags[i]
    ensures SubmitBody(InitialForm(Some(p))).tags == Some(p.tags)
  {
    assert forall i :: 0 <= i < |p.tags| ==> CleanTag(p.tags[i]) by {
      forall i | 0 <= i < |p.tags| ensures CleanTag(p.tags[i]) {
        assert NormalisedTag(p.tags[i]);
      }
    }
    ParseTagField(p.tags);
    assert InitialForm(Some(p)).tags == TagField(p.tags);
  }

  // ---------------------------------------------------------------------------
  // The post table
  // ---------------------------------------------------------------------------

  /** `posts.filter(post => post._id !== postId)` */
  function RemoveById(posts: seq<Post>, id: PostId): (r: seq<Post>)
    ensures |r| <= |posts|
    ensures forall p :: p in r <==> p in posts && p.id != id
  {
    if posts == [] then []
    else (if posts[0].id == id then [] else [posts[0]]) + RemoveById(posts[1..], id)
  }

  /** The filter keeps the order: it distributes over concatenation. */
  lemma {:induction false} RemoveByIdAppend(a: seq<Post>, b: seq<Post>, id: PostId)
    ensures RemoveById(a + b, id) == RemoveById(a, id) + RemoveById(b, id)
    decreases |a|
  {
    if a != [] {
      assert (a + b)[1..] == a[1..] + b;
      RemoveByIdAppend(a[1..], b, id);
    } else {
      assert a + b == b;
    }
  }

  /** Deleting an id that is not in the table leaves it as it is. */
  lemma {:induction false} RemoveAbsentId(posts: seq<Post>, id: PostId)
    requires forall i :: 0 <= i < |posts| ==> posts[i].id != id
    ensures RemoveById(posts, id) == posts
    decreases |posts|
  {
    if posts != [] {
      RemoveAbsentId(posts[1..], id);
    }
  }

  /** `posts.map(post => post._id === savedPost._id ? savedPost : post)` */
  function ReplaceById(posts: seq<Post>, saved: Post): (r: seq<Post>)
    ensures |r| == |posts|
    ensures forall i :: 0 <= i < |posts| ==> r[i] == if posts[i].id == saved.id then saved else posts[i]
  {
    seq(|posts|, i requires 0 <= i < |posts| => if posts[i].id == saved.id then saved else posts[i])
  }

  predicate UniqueIds(posts: seq<Post>) {
    forall i, j :: 0 <= i < j < |posts| ==> posts[i].id != posts[j].id
  }

  /** With distinct ids, saving replaces exactly the entry with that id, in
      its place. */
  lemma ReplaceSingle(posts: seq<Post>, k: nat, saved: Post)
    requires UniqueIds(posts) && k < |posts| && posts[k].id == saved.id
    ensures ReplaceById(posts, saved) == posts[k := saved]
  {
  }

  /** Replacing keeps the ids, so it keeps them distinct. */
  lemma ReplaceKeepsIds(posts: seq<Post>, saved: Post)
    ensures forall i :: 0 <= i < |posts| ==> ReplaceById(posts, saved)[i].id == posts[i].id
  {
  }

  class Admin {
    var posts: seq<Post>
    var showEditor: bool
    var editingPost: Option<Post>
    var loading: bool

    constructor ()
      ensures posts == [] && !showEditor && editingPost.None? && !loading
    {
      posts := [];
      showEditor := false;
      editingPost := None;
      loading := false;
    }

    /** fetchAllPosts with the response to `GET /posts?limit=100`, None when
        the request failed. */
    method FetchAllPosts(response: Option<seq<Post>>)
      modifies this
      ensures posts == if response.Some? then response.value else old(posts)
      ensures !loading
      ensures showEditor == old(showEditor) && editingPost == old(editingPost)
    {
      loading := true;
      if response.Some? {
        posts := response.value;
      }
      loading := false;
    }

    /** handleDelete: only after confirmation and a successful request is the
        post removed from the table. */
    method HandleDelete(id: PostId, confirmed: bool, deleted: bool)
      modifies this
      ensures posts == if confirmed && deleted then RemoveById(old(posts), id) else old(posts)
      ensures showEditor == old(showEditor) && editingPost == old(editingPost) && loading == old(loading)
    {
      if confirmed {
        if deleted {
          posts := RemoveById(posts, id);
        }
      }
    }

    /** handleEdit */
    method HandleEdit(post: Post)
      modifies this
      ensures editingPost == Some(post) && showEditor
      ensures posts == old(posts) && loading == old(loading)
    {
      editingPost := Some(post);
      showEditor := true;
    }

    /** The "Novo Post" button. */
    method OpenNewEditor()
      modifies this
      ensures showEditor
      ensures posts == old(posts) && editingPost == old(editingPost) && loading == old(loading)
    {
      showEditor := true;
    }

    /** The editor's cancel button. */
    method CancelEditor()
      modifies this
      ensures !showEditor && editingPost.None?
      ensures posts == old(posts) && loading == old(loading)
    {
      showEditor := false;
      editingPost := None;
    }

    /** handlePostSaved: an edited post replaces its entry, a new post goes in
        front; the editor closes either way. */
    method HandlePostSaved(saved: Post)
      modifies this
      ensures old(editingPost).Some? ==> posts == ReplaceById(old(posts), saved)
      ensures old(editingPost).None? ==> posts == [saved] + old(posts)
      ensures |posts| == |old(posts)| + (if old(editingPost).Some? then 0 else 1)
      ensures !showEditor && editingPost.None? && loading == old(loading)
    {
      if editingPost.Some? {
        posts := ReplaceById(posts, saved);
      } else {
        posts := [saved] + posts;
      }
      showEditor := false;
      editingPost := None;
    }
  }
}

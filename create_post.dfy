/** The post form: its pre-filled values when editing, the required-field rules, the
    tag parsing and excerpt default of onSubmit, where the data goes, and when the
    submit button is enabled. */
module CreatePost {
  import opened Common
  import Text
  import PostModel
  import BlogContext

  /** The form fields as typed; tags is one comma-separated string. */
  datatype FormData = FormData(title: string, content: string, excerpt: string, tags: string, image: string)

  /** What the form does with submitted data besides calling createPost. */
  datatype Effect = Saved(data: BlogContext.PostData) | Navigated(path: string)

  /** A tag as parsing leaves it: non-empty, trimmed and free of commas. */
  predicate CleanTag(t: string) {
    t != [] && Text.IsTrimmed(t) && ',' !in t
  }

  /** .map(tag => tag.trim()).filter(tag => tag.length > 0) over the comma pieces. */
  function CleanTags(pieces: seq<string>): (r: seq<string>)
    ensures |r| <= |pieces|
    ensures (forall i :: 0 <= i < |pieces| ==> ',' !in pieces[i]) ==> forall i :: 0 <= i < |r| ==> CleanTag(r[i])
    decreases |pieces|
  {
    if pieces == [] then []
    else
      var t := Text.Trim(pieces[0]);
      var rest := CleanTags(pieces[1..]);
      Text.TrimKeepsOut(pieces[0], ',');
      assert forall i :: 0 <= i < |pieces| - 1 ==> pieces[1..][i] == pieces[i + 1];
      if t == [] then rest else [t] + rest
  }

  /** data.tags.split(',') trimmed piece by piece, with the empty pieces dropped. */
  function ParseTags(raw: string): (tags: seq<string>)
    ensures forall i :: 0 <= i < |tags| ==> CleanTag(tags[i])
    ensures |tags| <= Text.CountChar(raw, ',') + 1
  {
    Text.SplitLength(raw, ',');
    CleanTags(Text.Split(raw, ','))
  }

  /** The edit form shows the tags joined with ", ". */
  function JoinTags(tags: seq<string>): string {
    Text.Join(tags, ", ")
  }

  /** Cleaning the pieces one at a time. */
  lemma CleanTagsCons(a: string, rest: seq<string>)
    ensures CleanTags([a] + rest) == (if Text.Trim(a) == [] then [] else [Text.Trim(a)]) + CleanTags(rest)
  {
    assert ([a] + rest)[1..] == rest;
  }

  /** The joined text of two or more tags: the first, a comma, and a space before the rest. */
  lemma JoinCons(pre: string, t: string, rest: seq<string>)
    requires rest != []
    ensures pre + JoinTags([t] + rest) == (pre + t) + [','] + (" " + JoinTags(rest))
  {
    assert ([t] + rest)[1..] == rest;
    assert ", " == [','] + " ";
  }

  lemma NoCommaInSpace(pre: string)
    requires Text.AllSpace(pre)
    ensures ',' !in pre
  {
  }

  /** The last tag, after blank padding, parses back to itself. */
  lemma ParseJoinLast(pre: string, t: string)
    requires Text.AllSpace(pre) && CleanTag(t)
    ensures CleanTags(Text.Split(pre + JoinTags([t]), ',')) == [t]
  {
    var u := pre + t;
    assert JoinTags([t]) == t;
    NoCommaInPadded(pre, t);
    Text.SplitNoSeparator(u, ',');
    Text.TrimPadded(pre, t);
    CleanOne(u, t);
  }

  lemma NoCommaInPadded(pre: string, t: string)
    requires Text.AllSpace(pre) && ',' !in t
    ensures ',' !in pre + t
  {
    NoCommaInSpace(pre);
  }

  lemma CleanOne(u: string, t: string)
    requires Text.Trim(u) == t && t != []
    ensures CleanTags([u]) == [t]
  {
    CleanTagsCons(u, []);
  }

  /** A tag followed by more tags: the first parses back to itself, and the rest is
      parsed from the text after its comma. */
  lemma ParseJoinStep(pre: string, t: string, rest: seq<string>)
    requires Text.AllSpace(pre) && CleanTag(t) && rest != []
    ensures CleanTags(Text.Split(pre + JoinTags([t] + rest), ',')) == [t] + CleanTags(Text.Split(" " + JoinTags(rest), ','))
  {
    NoCommaInSpace(pre);
    assert ',' !in pre + t;
    Text.TrimPadded(pre, t);
    var tail := " " + JoinTags(rest);
    JoinCons(pre, t, rest);
    Text.SplitAtSeparator(pre + t, ',', tail);
    CleanTagsCons(pre + t, Text.Split(tail, ','));
  }

  /** Blank padding alone parses to no tags. */
  lemma ParseJoinEmpty(pre: string)
    requires Text.AllSpace(pre)
    ensures CleanTags(Text.Split(pre + JoinTags([]), ',')) == []
  {
    NoCommaInSpace(pre);
    assert pre + JoinTags([]) == pre;
    Text.SplitNoSeparator(pre, ',');
    Text.TrimEmptyIffBlank(pre);
    CleanTagsCons(pre, []);
  }

  predicate AllClean(tags: seq<string>) {
    forall i :: 0 <= i < |tags| ==> CleanTag(tags[i])
  }

  lemma AllCleanTail(tags: seq<string>)
    requires AllClean(tags) && tags != []
    ensures CleanTag(tags[0]) && AllClean(tags[1..])
  {
    assert forall i :: 0 <= i < |tags| - 1 ==> tags[1..][i] == tags[i + 1];
  }

  lemma {:induction false} ParseJoinPadded(pre: string, tags: seq<string>)
    requires Text.AllSpace(pre) && AllClean(tags)
    ensures CleanTags(Text.Split(pre + JoinTags(tags), ',')) == tags
    decreases |tags|
  {
    if tags == [] {
      ParseJoinEmpty(pre);
    } else {
      var t, rest := tags[0], tags[1..];
      AllCleanTail(tags);
      assert tags == [t] + rest;
      if rest == [] {
        ParseJoinLast(pre, t);
      } else {
        ParseJoinStep(pre, t, rest);
        assert Text.AllSpace(" ");
        ParseJoinPadded(" ", rest);
      }
    }
  }

  /** Re-parsing the tags the edit form shows gives back the post's tags, provided each
      is non-empty, trimmed and free of commas. */
  lemma ParseJoinRoundTrip(tags: seq<string>)
    requires forall i :: 0 <= i < |tags| ==> CleanTag(tags[i])
    ensures ParseTags(JoinTags(tags)) == tags
  {
    ParseJoinPadded("", tags);
    assert "" + JoinTags(tags) == JoinTags(tags);
  }

  /** A tag with a comma comes back from the edit form as several tags. */
  lemma CommaTagSplits()
    ensures ParseTags(JoinTags(["a,b"])) == ["a", "b"]
  {
    SplitCommaTag();
    CleanPlainTags();
  }

  lemma SplitCommaTag()
    ensures Text.Split(JoinTags(["a,b"]), ',') == ["a", "b"]
  {
    assert JoinTags(["a,b"]) == "a" + [','] + "b";
    Text.SplitAtSeparator("a", ',', "b");
    Text.SplitNoSeparator("b", ',');
  }

  lemma CleanPlainTags()
    ensures CleanTags(["a", "b"]) == ["a", "b"]
  {
    assert !Text.IsSpace('a') && !Text.IsSpace('b');
    Text.TrimFixedIffTrimmed("a");
    Text.TrimFixedIffTrimmed("b");
    assert ["a", "b"] == ["a"] + ["b"] && ["b"] == ["b"] + [];
    CleanTagsCons("a", ["b"]);
    CleanTagsCons("b", []);
  }

  /** data.excerpt || data.content.substring(0, 150) + '...' */
  function ExcerptOrDefault(excerpt: string, content: string): (e: string)
    ensures e != []
    ensures excerpt != [] ==> e == excerpt
    ensures excerpt == [] ==> e == Text.Prefix(content, PostModel.ExcerptSourceLength) + "..."
  {
    if excerpt != [] then excerpt else Text.Prefix(content, PostModel.ExcerptSourceLength) + "..."
  }

  /** The form fills in the same excerpt the server's pre-save hook would, so a post
      saved from the form never reaches the hook with an empty excerpt. */
  lemma ExcerptAgreesWithServer(p: PostModel.Post)
    requires p.content != []
    ensures PostModel.PreSave(p).excerpt == ExcerptOrDefault(p.excerpt, p.content)
  {
  }

  /** The postData of onSubmit: the fields as typed, tags parsed, excerpt defaulted. */
  function ToPostData(data: FormData): (d: BlogContext.PostData)
    ensures d.title == data.title && d.content == data.content && d.image == data.image
    ensures d.tags == ParseTags(data.tags)
    ensures d.excerpt == ExcerptOrDefault(data.excerpt, data.content)
  {
    BlogContext.PostData(data.title, data.content, ExcerptOrDefault(data.excerpt, data.content), ParseTags(data.tags), data.image)
  }

  /** defaultValues: the post's fields when editing (tags joined with ", "), empty
      fields otherwise. */
  function DefaultValues(existing: Option<BlogContext.ClientPost>): (f: FormData)
    ensures existing.None? ==> f == FormData([], [], [], [], [])
    ensures existing.Some? ==> f.title == existing.value.title && f.content == existing.value.content
    ensures existing.Some? ==> f.excerpt == existing.value.excerpt && f.image == existing.value.image
    ensures existing.Some? ==> f.tags == JoinTags(existing.value.tags)
  {
    match existing
    case None => FormData([], [], [], [], [])
    case Some(p) => FormData(p.title, p.content, p.excerpt, JoinTags(p.tags), p.image)
  }

  /** Submitting an edit form untouched sends the post back as it was, except that an
      empty excerpt is filled in. */
  lemma EditRoundTrip(p: BlogContext.ClientPost)
    requires forall i :: 0 <= i < |p.tags| ==> CleanTag(p.tags[i])
    ensures var d := ToPostData(DefaultValues(Some(p)));
      && d.title == p.title && d.content == p.content && d.image == p.image && d.tags == p.tags
      && (p.excerpt != [] ==> d.excerpt == p.excerpt)
  {
    ParseJoinRoundTrip(p.tags);
  }

  /** The required rules checked before onSubmit runs. */
  function RequiredErrors(data: FormData): (errors: seq<(string, string)>)
    ensures errors == [] <==> data.title != [] && data.content != []
  {
    (if data.title == [] then [("title", "Title is required")] else [])
    + (if data.content == [] then [("content", "Content is required")] else [])
  }

  /** The submit button is enabled when not submitting and neither title nor content
      is blank after trimming. */
  predicate SubmitEnabled(isSubmitting: bool, title: string, content: string): (b: bool)
    ensures b <==> !isSubmitting && !Text.AllSpace(title) && !Text.AllSpace(content)
  {
    Text.TrimEmptyIffBlank(title);
    Text.TrimEmptyIffBlank(content);
    !isSubmitting && Text.Trim(title) != [] && Text.Trim(content) != []
  }

  /** Enabled exactly when idle and both title and content hold a non-whitespace
      character; then the required rules pass too. */
  lemma SubmitEnabledIff(isSubmitting: bool, title: string, content: string)
    ensures SubmitEnabled(isSubmitting, title, content) <==> !isSubmitting && !Text.AllSpace(title) && !Text.AllSpace(content)
    ensures SubmitEnabled(isSubmitting, title, content) ==> RequiredErrors(FormData(title, content, [], [], [])) == []
  {
    Text.TrimEmptyIffBlank(title);
    Text.TrimEmptyIffBlank(content);
  }

  /** The form's state: whether a submission is in progress, whether an onSave callback
      was given (editing), and the effects produced so far. */
  class PostForm {
    var isSubmitting: bool
    var effects: seq<Effect>
    const hasOnSave: bool

    constructor(hasOnSave: bool)
      ensures this.hasOnSave == hasOnSave && !isSubmitting && effects == []
    {
      this.hasOnSave := hasOnSave;
      isSubmitting := false;
      effects := [];
    }

    /** handleSubmit(onSubmit): with a required field empty, the errors and nothing else.
        Otherwise the parsed data goes to onSave when editing, or to createPost followed
        by navigation to '/'; isSubmitting is false again at the end. */
    method Submit(data: FormData, provider: BlogContext.BlogProvider) returns (errors: seq<(string, string)>)
      modifies this, provider
      ensures errors == RequiredErrors(data)
      ensures errors != [] ==> effects == old(effects) && isSubmitting == old(isSubmitting)
      ensures errors == [] ==> !isSubmitting
      ensures errors == [] && hasOnSave ==> effects == old(effects) + [Saved(ToPostData(data))]
      ensures errors == [] && !hasOnSave ==> effects == old(effects) + [Navigated("/")]
      ensures provider.posts == old(provider.posts) && provider.comments == old(provider.comments)
      ensures provider.user == old(provider.user)
      ensures errors == [] && !hasOnSave ==>
        provider.requests == old(provider.requests) + provider.IfSignedIn(BlogContext.CreatePostCall(ToPostData(data)))
      ensures errors != [] || hasOnSave ==> provider.requests == old(provider.requests)
    {
      errors := RequiredErrors(data);
      if errors != [] {
        return;
      }
      isSubmitting := true;
      var postData := ToPostData(data);
      if hasOnSave {
        effects := effects + [Saved(postData)];
      } else {
        provider.CreatePost(postData);
        effects := effects + [Navigated("/")];
      }
      isSubmitting := false;
    }
  }
}

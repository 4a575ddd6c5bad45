/** The help chatbot: a blank message is refused, otherwise the lower-cased message is
    matched against an ordered table of keyword lists and the first entry with a keyword
    inside the message supplies the reply. */
module Chatbot {
  import opened Common
  import Text

  datatype Entry = Entry(keywords: seq<string>, reply: string)

  /** The JSON answer: the status and the reply text. */
  datatype Answer = Answer(status: int, reply: string)

  const BlankReply: string := "⚠️ Please type a message."
  const Fallback: string := "❓ Sorry, I didn’t understand that. Try asking about blogs, login, profile, or help. 🤖"

  /** The entries of the response table. */
  const Hello: Entry := Entry(["hello", "hi", "hey"], "👋 Hello! I'm your assistant. How can I help you today?")
  const GoodMorning: Entry := Entry(["good morning"], "☀️ Good morning! Hope you have a productive day.")
  const GoodNight: Entry := Entry(["good night"], "🌙 Good night! Rest well.")
  const BlogTopic: Entry := Entry(["blog", "blogs", "posts", "articles"], "📝 You can view all blogs in the Blog section.")
  const CreateTopic: Entry := Entry(["create post", "new blog", "write"], "✍️ Go to 'Create Post' to write your own blog.")
  const SearchTopic: Entry := Entry(["search", "find", "filter"], "🔍 Use the search bar in the navbar to find blogs easily.")
  const MyBlogs: Entry := Entry(["my blogs", "my posts"], "📂 Visit your Profile to see blogs you’ve written.")
  const Trending: Entry := Entry(["trending", "popular"], "🔥 Check the home page for trending and popular blogs.")
  const Login: Entry := Entry(["login", "signin"], "🔑 Click on Login from the top-right corner to sign in.")
  const Register: Entry := Entry(["register", "signup", "join"], "🆕 Go to Register to create a new account.")
  const Profile: Entry := Entry(["profile", "account"], "👤 You can view and edit your profile in the Profile section.")
  const Password: Entry := Entry(["password", "reset", "forgot"], "🔐 You can change your password from Profile settings.")
  const Logout: Entry := Entry(["logout", "signout"], "🚪 Click on Logout in the menu to sign out safely.")
  const Like: Entry := Entry(["like", "heart"], "❤️ You can like blogs and comments to support authors.")
  const Bookmark: Entry := Entry(["bookmark", "save"], "🔖 Bookmark blogs to read them later!")
  const CommentTopic: Entry := Entry(["comment", "reply"], "💬 Share your thoughts by commenting on any blog.")
  const Share: Entry := Entry(["share"], "📤 You can share blogs with your friends via links.")
  const Notification: Entry := Entry(["notification", "alerts"], "🔔 You will get notifications when someone interacts with your blog.")
  const Help: Entry := Entry(["help", "support"], "ℹ️ You can ask me about blogs, login, profile, or account settings.")
  const About: Entry := Entry(["about"], "🤖 I’m your chatbot assistant here to guide you through the app.")
  const Contact: Entry := Entry(["contact", "admin", "support team"], "📧 Reach out to our support team via the Contact page.")
  const Faq: Entry := Entry(["faq", "questions"], "📖 Check our FAQ section for common questions.")
  const Bye: Entry := Entry(["bye", "goodbye", "see you"], "👋 Goodbye! Have a great day.")
  const Thanks: Entry := Entry(["thanks", "thank you"], "🙏 You're welcome! Always happy to help.")

  /** The table in groups of related entries, in scan order. */
  const Greetings: seq<Entry> := [Hello, GoodMorning, GoodNight]
  const BlogTopics: seq<Entry> := [BlogTopic, CreateTopic]
  const SearchTopics: seq<Entry> := [SearchTopic, MyBlogs, Trending]
  const SignInTopics: seq<Entry> := [Login, Register]
  const AccountTopics: seq<Entry> := [Profile, Password, Logout]
  const InteractionTopics: seq<Entry> := [Like, Bookmark]
  const SharingTopics: seq<Entry> := [CommentTopic, Share, Notification]
  const HelpTopics: seq<Entry> := [Help, About, Contact]
  const Farewells: seq<Entry> := [Faq, Bye, Thanks]

  /** The rest of the table from each group on. */
  const FromHelp: seq<Entry> := HelpTopics + Farewells
  const FromSharing: seq<Entry> := SharingTopics + FromHelp
  const FromInteraction: seq<Entry> := InteractionTopics + FromSharing
  const FromAccount: seq<Entry> := AccountTopics + FromInteraction
  const FromSignIn: seq<Entry> := SignInTopics + FromAccount
  const FromSearch: seq<Entry> := SearchTopics + FromSignIn
  const FromBlog: seq<Entry> := BlogTopics + FromSearch

  /** The response table, in the order it is scanned: 24 entries. */
  const Responses: seq<Entry> := Greetings + FromBlog

  const MyBlogsEntry: nat := 6
  const HelpEntry: nat := 18

  /** item.keywords.some(kw => lowerMsg.includes(kw)) */
  predicate AnyKeyword(keywords: seq<string>, lowerMsg: string)
    ensures AnyKeyword(keywords, lowerMsg) <==> exists k :: 0 <= k < |keywords| && Text.Contains(lowerMsg, keywords[k])
    decreases |keywords|
  {
    |keywords| > 0 && (Text.Contains(lowerMsg, keywords[0]) || AnyKeyword(keywords[1..], lowerMsg))
  }

  /** The first entry, in table order, with a keyword inside the message. */
  function FirstMatch(entries: seq<Entry>, lowerMsg: string): (r: Option<nat>)
    ensures r.Some? ==> r.value < |entries| && AnyKeyword(entries[r.value].keywords, lowerMsg)
    ensures r.Some? ==> forall j :: 0 <= j < r.value ==> !AnyKeyword(entries[j].keywords, lowerMsg)
    ensures r.None? ==> forall j :: 0 <= j < |entries| ==> !AnyKeyword(entries[j].keywords, lowerMsg)
    decreases |entries|
  {
    if entries == [] then None
    else if AnyKeyword(entries[0].keywords, lowerMsg) then Some(0)
    else match FirstMatch(entries[1..], lowerMsg)
      case Some(i) => Some(i + 1)
      case None => None
  }

  /** What the controller answers: 400 for a missing or blank message; otherwise 200
      with the first matching entry's reply, or the fallback when nothing matches. */
  function Respond(message: Option<string>): (a: Answer)
    ensures Text.Trim(GetOr(message, [])) == [] <==> a.status == 400
    ensures a.status == 400 ==> a.reply == BlankReply
  {
    var msg := GetOr(message, []);
    if Text.Trim(msg) == [] then Answer(400, BlankReply)
    else Answer(200, ReplyFor(Responses, Text.Lower(msg)))
  }

  /** The reply the table gives: the first matching entry's, or the fallback. */
  function ReplyFor(entries: seq<Entry>, lowerMsg: string): (reply: string)
    ensures (exists i :: 0 <= i < |entries| && AnyKeyword(entries[i].keywords, lowerMsg)) ==>
      exists i :: 0 <= i < |entries| && reply == entries[i].reply && AnyKeyword(entries[i].keywords, lowerMsg)
        && forall j :: 0 <= j < i ==> !AnyKeyword(entries[j].keywords, lowerMsg)
    ensures (forall i :: 0 <= i < |entries| ==> !AnyKeyword(entries[i].keywords, lowerMsg)) ==> reply == Fallback
  {
    match FirstMatch(entries, lowerMsg)
    case Some(i) => entries[i].reply
    case None => Fallback
  }

  /** The for loop over the table: reply starts as the fallback and is overwritten by the
      first entry whose keywords match, where the scan stops. */
  method Scan(entries: seq<Entry>, lowerMsg: string) returns (reply: string)
    ensures reply == ReplyFor(entries, lowerMsg)
    ensures (exists i :: 0 <= i < |entries| && AnyKeyword(entries[i].keywords, lowerMsg)) ==>
      exists i :: 0 <= i < |entries| && reply == entries[i].reply && AnyKeyword(entries[i].keywords, lowerMsg)
        && forall j :: 0 <= j < i ==> !AnyKeyword(entries[j].keywords, lowerMsg)
    ensures (forall i :: 0 <= i < |entries| ==> !AnyKeyword(entries[i].keywords, lowerMsg)) ==> reply == Fallback
  {
    reply := Fallback;
    var i := 0;
    while i < |entries|
      invariant 0 <= i <= |entries|
      invariant forall j :: 0 <= j < i ==> !AnyKeyword(entries[j].keywords, lowerMsg)
      invariant reply == Fallback
    {
      if AnyKeyword(entries[i].keywords, lowerMsg) {
        reply := entries[i].reply;
        FirstMatchIs(entries, lowerMsg, i);
        break;
      }
      i := i + 1;
    }
  }

  /** chatbotReply: the blank check, then the scan of the lower-cased message. */
  method ChatbotReply(message: Option<string>) returns (a: Answer)
    ensures a == Respond(message)
  {
    var msg := GetOr(message, []);
    if Text.Trim(msg) == [] {
      return Answer(400, BlankReply);
    }
    var reply := Scan(Responses, Text.Lower(msg));
    a := Answer(200, reply);
  }

  /** An entry that matches with no earlier entry matching is the first match. */
  lemma {:induction false} FirstMatchIs(entries: seq<Entry>, lowerMsg: string, i: nat)
    requires i < |entries| && AnyKeyword(entries[i].keywords, lowerMsg)
    requires forall j :: 0 <= j < i ==> !AnyKeyword(entries[j].keywords, lowerMsg)
    ensures FirstMatch(entries, lowerMsg) == Some(i)
    decreases i
  {
    if i > 0 {
      FirstMatchIs(entries[1..], lowerMsg, i - 1);
    }
  }

  /** A missing, empty or whitespace-only message, and only such a message, is refused
      with 400. */
  lemma BlankRefused(message: Option<string>)
    ensures (message.None? || Text.AllSpace(message.value)) <==> Respond(message) == Answer(400, BlankReply)
  {
    Text.TrimEmptyIffBlank(GetOr(message, []));
  }

  /** Matching ignores ASCII case: a message and its lower-cased form get the same answer. */
  lemma IgnoresCase(m: string)
    ensures Respond(Some(Text.Lower(m))) == Respond(Some(m))
  {
    Text.LowerTrimCommute(m);
    Text.LowerIsLower(m);
    assert |Text.Lower(Text.Trim(m))| == |Text.Trim(m)|;
  }

  /** Every keyword of entry later contains a keyword of entry earlier. */
  predicate Shadows(entries: seq<Entry>, earlier: nat, later: nat)
    requires earlier < |entries| && later < |entries|
  {
    forall k :: 0 <= k < |entries[later].keywords| ==>
      exists e :: 0 <= e < |entries[earlier].keywords| && Text.Contains(entries[later].keywords[k], entries[earlier].keywords[e])
  }

  /** An entry shadowed by an earlier one is never the first match: whatever message
      contains one of its keywords also contains a keyword of the earlier entry. */
  lemma ShadowedNeverFirst(entries: seq<Entry>, earlier: nat, later: nat, lowerMsg: string)
    requires earlier < later < |entries| && Shadows(entries, earlier, later)
    ensures FirstMatch(entries, lowerMsg) != Some(later)
  {
    if AnyKeyword(entries[later].keywords, lowerMsg) {
      var k :| 0 <= k < |entries[later].keywords| && Text.Contains(lowerMsg, entries[later].keywords[k]);
      var e :| 0 <= e < |entries[earlier].keywords| && Text.Contains(entries[later].keywords[k], entries[earlier].keywords[e]);
      Text.ContainsTransitive(lowerMsg, entries[later].keywords[k], entries[earlier].keywords[e]);
    }
  }

  /** The first match in a + b: the first match in a, or else the first match in b
      counted from the end of a. */
  function Shifted(r: Option<nat>, n: nat): Option<nat> {
    match r
    case Some(i) => Some(i + n)
    case None => None
  }

  lemma {:induction false} FirstMatchConcat(a: seq<Entry>, b: seq<Entry>, lowerMsg: string)
    ensures FirstMatch(a + b, lowerMsg) == if FirstMatch(a, lowerMsg).Some? then FirstMatch(a, lowerMsg) else Shifted(FirstMatch(b, lowerMsg), |a|)
    decreases |a|
  {
    if a == [] {
      assert a + b == b;
    } else {
      assert (a + b)[0] == a[0] && (a + b)[1..] == a[1..] + b;
      FirstMatchConcat(a[1..], b, lowerMsg);
    }
  }

  /** The help entry is entry 18 of the table. */
  lemma HelpIsEntry18()
    ensures |Responses| == 24 && Responses[HelpEntry] == Help
  {
    assert FromHelp[0] == Help;
    assert FromSharing[3] == Help;
    assert FromInteraction[5] == Help;
    assert FromAccount[8] == Help;
    assert FromSignIn[10] == Help;
    assert FromSearch[13] == Help;
    assert FromBlog[15] == Help;
  }

  /** The 'my blogs' / 'my posts' entry (entry 6) is never chosen, whatever the message:
      'my blogs' contains 'blog' and 'my posts' contains 'posts', both keywords of the
      blog entry (entry 3) scanned before it. */
  lemma MyBlogsUnreachable(lowerMsg: string)
    ensures FirstMatch(Responses, lowerMsg) != Some(MyBlogsEntry)
  {
    BlogShadowsMyBlogs();
    ShadowedNeverFirst(FromBlog, 0, 3, lowerMsg);
    FirstMatchConcat(Greetings, FromBlog, lowerMsg);
  }

  /** Entry 3 of FromBlog (the 'my blogs' entry) is shadowed by its entry 0 (the blog
      entry). */
  lemma BlogShadowsMyBlogs()
    ensures Shadows(FromBlog, 0, 3)
  {
    var blog := BlogTopic.keywords;
    var mine := MyBlogs.keywords;
    assert FromBlog[0] == BlogTopic && FromBlog[3] == MyBlogs;
    assert blog[0] == "blog" && blog[2] == "posts";
    assert mine == ["my blogs", "my posts"];
    forall k | 0 <= k < |mine| ensures exists e :: 0 <= e < |blog| && Text.Contains(mine[k], blog[e]) {
      if k == 0 {
        assert Text.Contains("my blogs", "blog");
        assert Text.Contains(mine[k], blog[0]);
      } else {
        assert Text.Contains("my posts", "posts");
        assert Text.Contains(mine[k], blog[2]);
      }
    }
  }

  /** A message containing 'support team' is answered by the help entry or an earlier
      one, never by the contact entry that lists 'support team' among its keywords:
      'support team' contains the help entry's keyword 'support'. */
  lemma SupportTeamShadowed(lowerMsg: string)
    requires Text.Contains(lowerMsg, "support team")
    ensures FirstMatch(Responses, lowerMsg).Some? && FirstMatch(Responses, lowerMsg).value <= HelpEntry
  {
    HelpWithinSignIn(lowerMsg);
    FirstMatchConcat(SearchTopics, FromSignIn, lowerMsg);
    FirstMatchConcat(BlogTopics, FromSearch, lowerMsg);
    FirstMatchConcat(Greetings, FromBlog, lowerMsg);
  }

  /** From the sign-in group on, a message containing 'support team' is matched no later
      than the help entry, ten entries on. */
  lemma HelpWithinSignIn(lowerMsg: string)
    requires Text.Contains(lowerMsg, "support team")
    ensures FirstMatch(FromSignIn, lowerMsg).Some? && FirstMatch(FromSignIn, lowerMsg).value <= 10
  {
    HelpMatchesSupportTeam(lowerMsg);
    FirstMatchConcat(HelpTopics, Farewells, lowerMsg);
    FirstMatchConcat(SharingTopics, FromHelp, lowerMsg);
    FirstMatchConcat(InteractionTopics, FromSharing, lowerMsg);
    FirstMatchConcat(AccountTopics, FromInteraction, lowerMsg);
    FirstMatchConcat(SignInTopics, FromAccount, lowerMsg);
  }

  lemma HelpMatchesSupportTeam(lowerMsg: string)
    requires Text.Contains(lowerMsg, "support team")
    ensures FirstMatch(HelpTopics, lowerMsg) == Some(0)
  {
    assert Text.Contains("support team", "support");
    Text.ContainsTransitive(lowerMsg, "support team", "support");
    assert Help.keywords[1] == "support";
    assert AnyKeyword(Help.keywords, lowerMsg);
  }

  /** The message 'support team' alone gets the help entry's reply. */
  lemma SupportTeamIsHelp()
    ensures Respond(Some("support team")) == Answer(200, Help.reply)
  {
    SupportTeamNotBlank("support team");
    SupportTeamFindsHelp("support team");
    HelpIsEntry18();
  }

  lemma SupportTeamNotBlank(m: string)
    requires m == "support team"
    ensures Text.Lower(m) == m
    ensures Text.Trim(m) != []
  {
    assert Text.IsLower(m);
    Text.LowerKeepsLower(m);
    assert !Text.IsSpace(m[0]);
    Text.TrimEmptyIffBlank(m);
  }

  /** The scan of 'support team' passes every entry before the help entry and stops
      there. */
  lemma SupportTeamFindsHelp(m: string)
    requires m == "support team"
    ensures FirstMatch(Responses, m) == Some(HelpEntry)
  {
    SupportTeamFromSignIn(m);
    SupportTeamMissesSearch(m);
    FirstMatchConcat(SearchTopics, FromSignIn, m);
    SupportTeamMissesBlog(m);
    FirstMatchConcat(BlogTopics, FromSearch, m);
    SupportTeamMissesGreetings(m);
    FirstMatchConcat(Greetings, FromBlog, m);
  }

  lemma SupportTeamFromSignIn(m: string)
    requires m == "support team"
    ensures FirstMatch(FromSignIn, m) == Some(10)
  {
    SupportTeamFromSharing(m);
    SupportTeamMissesInteraction(m);
    FirstMatchConcat(InteractionTopics, FromSharing, m);
    SupportTeamMissesAccount(m);
    FirstMatchConcat(AccountTopics, FromInteraction, m);
    SupportTeamMissesSignIn(m);
    FirstMatchConcat(SignInTopics, FromAccount, m);
  }

  lemma SupportTeamFromSharing(m: string)
    requires m == "support team"
    ensures FirstMatch(FromSharing, m) == Some(3)
  {
    assert Text.OccursAt(m, "support", 0);
    Text.ContainsIff(m, "support");
    assert AnyKeyword(Help.keywords, m);
    assert FirstMatch(HelpTopics, m) == Some(0);
    FirstMatchConcat(HelpTopics, Farewells, m);
    SupportTeamMissesSharing(m);
    FirstMatchConcat(SharingTopics, FromHelp, m);
  }

  lemma SupportTeamMissesGreetings(m: string)
    requires m == "support team"
    ensures FirstMatch(Greetings, m) == None
  {
    SupportTeamMissesHello(m);
    SupportTeamMissesGoodMorning(m);
    SupportTeamMissesGoodNight(m);
  }

  lemma SupportTeamMissesHello(m: string)
    requires m == "support team"
    ensures !AnyKeyword(Hello.keywords, m)
  {
    assert Hello.keywords == ["hello", "hi", "hey"];
    Text.CharAbsent(m, "hello", 0);
    Text.CharAbsent(m, "hi", 0);
    Text.CharAbsent(m, "hey", 0);
  }

  lemma SupportTeamMissesGoodMorning(m: string)
    requires m == "support team"
    ensures !AnyKeyword(GoodMorning.keywords, m)
  {
    assert GoodMorning.keywords == ["good morning"];
    Text.CharAbsent(m, "good morning", 0);
  }

  lemma SupportTeamMissesGoodNight(m: string)
    requires m == "support team"
    ensures !AnyKeyword(GoodNight.keywords, m)
  {
    assert GoodNight.keywords == ["good night"];
    Text.CharAbsent(m, "good night", 0);
  }

  lemma SupportTeamMissesBlog(m: string)
    requires m == "support team"
    ensures FirstMatch(BlogTopics, m) == None
  {
    SupportTeamMissesBlogTopic(m);
    SupportTeamMissesCreateTopic(m);
  }

  lemma SupportTeamMissesBlogTopic(m: string)
    requires m == "support team"
    ensures !AnyKeyword(BlogTopic.keywords, m)
  {
    assert BlogTopic.keywords == ["blog", "blogs", "posts", "articles"];
    Text.CharAbsent(m, "blog", 0);
    Text.CharAbsent(m, "blogs", 0);
    Text.PairAbsent(m, "posts", 1);
    Text.CharAbsent(m, "articles", 3);
  }

  lemma SupportTeamMissesCreateTopic(m: string)
    requires m == "support team"
    ensures !AnyKeyword(CreateTopic.keywords, m)
  {
    assert CreateTopic.keywords == ["create post", "new blog", "write"];
    Text.CharAbsent(m, "create post", 0);
    Text.CharAbsent(m, "new blog", 0);
    Text.CharAbsent(m, "write", 0);
  }

  lemma SupportTeamMissesSearch(m: string)
    requires m == "support team"
    ensures FirstMatch(SearchTopics, m) == None
  {
    SupportTeamMissesSearchTopic(m);
    SupportTeamMissesMyBlogs(m);
    SupportTeamMissesTrending(m);
  }

  lemma SupportTeamMissesSearchTopic(m: string)
    requires m == "support team"
    ensures !AnyKeyword(SearchTopic.keywords, m)
  {
    assert SearchTopic.keywords == ["search", "find", "filter"];
    Text.CharAbsent(m, "search", 4);
    Text.CharAbsent(m, "find", 0);
    Text.CharAbsent(m, "filter", 0);
  }

  lemma SupportTeamMissesMyBlogs(m: string)
    requires m == "support team"
    ensures !AnyKeyword(MyBlogs.keywords, m)
  {
    assert MyBlogs.keywords == ["my blogs", "my posts"];
    Text.CharAbsent(m, "my blogs", 1);
    Text.CharAbsent(m, "my posts", 1);
  }

  lemma SupportTeamMissesTrending(m: string)
    requires m == "support team"
    ensures !AnyKeyword(Trending.keywords, m)
  {
    assert Trending.keywords == ["trending", "popular"];
    Text.CharAbsent(m, "trending", 3);
    Text.CharAbsent(m, "popular", 4);
  }

  lemma SupportTeamMissesSignIn(m: string)
    requires m == "support team"
    ensures FirstMatch(SignInTopics, m) == None
  {
    SupportTeamMissesLogin(m);
    SupportTeamMissesRegister(m);
  }

  lemma SupportTeamMissesLogin(m: string)
    requires m == "support team"
    ensures !AnyKeyword(Login.keywords, m)
  {
    assert Login.keywords == ["login", "signin"];
    Text.CharAbsent(m, "login", 0);
    Text.CharAbsent(m, "signin", 1);
  }

  lemma SupportTeamMissesRegister(m: string)
    requires m == "support team"
    ensures !AnyKeyword(Register.keywords, m)
  {
    assert Register.keywords == ["register", "signup", "join"];
    Text.CharAbsent(m, "register", 2);
    Text.CharAbsent(m, "signup", 1);
    Text.CharAbsent(m, "join", 0);
  }

  lemma SupportTeamMissesAccount(m: string)
    requires m == "support team"
    ensures FirstMatch(AccountTopics, m) == None
  {
    SupportTeamMissesProfile(m);
    SupportTeamMissesPassword(m);
    SupportTeamMissesLogout(m);
  }

  lemma SupportTeamMissesProfile(m: string)
    requires m == "support team"
    ensures !AnyKeyword(Profile.keywords, m)
  {
    assert Profile.keywords == ["profile", "account"];
    Text.CharAbsent(m, "profile", 3);
    Text.CharAbsent(m, "account", 1);
  }

  lemma SupportTeamMissesPassword(m: string)
    requires m == "support team"
    ensures !AnyKeyword(Password.keywords, m)
  {
    assert Password.keywords == ["password", "reset", "forgot"];
    Text.CharAbsent(m, "password", 4);
    Text.PairAbsent(m, "reset", 0);
    Text.CharAbsent(m, "forgot", 0);
  }

  lemma SupportTeamMissesLogout(m: string)
    requires m == "support team"
    ensures !AnyKeyword(Logout.keywords, m)
  {
    assert Logout.keywords == ["logout", "signout"];
    Text.CharAbsent(m, "logout", 0);
    Text.CharAbsent(m, "signout", 1);
  }

  lemma SupportTeamMissesInteraction(m: string)
    requires m == "support team"
    ensures FirstMatch(InteractionTopics, m) == None
  {
    SupportTeamMissesLike(m);
    SupportTeamMissesBookmark(m);
  }

  lemma SupportTeamMissesLike(m: string)
    requires m == "support team"
    ensures !AnyKeyword(Like.keywords, m)
  {
    assert Like.keywords == ["like", "heart"];
    Text.CharAbsent(m, "like", 0);
    Text.CharAbsent(m, "heart", 0);
  }

  lemma SupportTeamMissesBookmark(m: string)
    requires m == "support team"
    ensures !AnyKeyword(Bookmark.keywords, m)
  {
    assert Bookmark.keywords == ["bookmark", "save"];
    Text.CharAbsent(m, "bookmark", 0);
    Text.CharAbsent(m, "save", 2);
  }

  lemma SupportTeamMissesSharing(m: string)
    requires m == "support team"
    ensures FirstMatch(SharingTopics, m) == None
  {
    SupportTeamMissesCommentTopic(m);
    SupportTeamMissesShare(m);
    SupportTeamMissesNotification(m);
  }

  lemma SupportTeamMissesCommentTopic(m: string)
    requires m == "support team"
    ensures !AnyKeyword(CommentTopic.keywords, m)
  {
    assert CommentTopic.keywords == ["comment", "reply"];
    Text.CharAbsent(m, "comment", 0);
    Text.CharAbsent(m, "reply", 3);
  }

  lemma SupportTeamMissesShare(m: string)
    requires m == "support team"
    ensures !AnyKeyword(Share.keywords, m)
  {
    assert Share.keywords == ["share"];
    Text.CharAbsent(m, "share", 1);
  }

  lemma SupportTeamMissesNotification(m: string)
    requires m == "support team"
    ensures !AnyKeyword(Notification.keywords, m)
  {
    assert Notification.keywords == ["notification", "alerts"];
    Text.CharAbsent(m, "notification", 0);
    Text.CharAbsent(m, "alerts", 1);
  }
}

# BlogApp core in Dafny

A Dafny model of the core of BlogApp, a blogging application with an Express/MongoDB
server and a React client, with proofs about the model.

Server side:

- **Post and comment controllers.** The comment controller lists a post's top-level
  comments newest first with their replies oldest first. It also creates comments and
  replies, edits them, deletes a comment together with its direct replies, and toggles a
  like. The blog controller lists published posts by tag, author and text search, sorted
  by creation time. It also reads a post (which counts a view), creates, updates and
  deletes posts (deletion cascades to the post's comments), toggles likes and bookmarks,
  and lists a user's bookmarks.
- **Schemas.** The Comment and BlogPost schemas cover field rules with their exact
  messages, the tag setters, the `readTime` and status defaults, and the pre-save
  auto-excerpt. They also cover the `replies`, `comments` and `commentsCount` virtuals.
- **Error middleware.** It turns an error handed to `next(error)` into a status and a
  message.
- **Chatbot.** It refuses a blank message. Otherwise it answers with the reply of the
  first table entry that has a keyword in the lower-cased message.

Client side:

- **Blog store** (`BlogContext`). It maps API records to client records and offers
  search, lookup by id and filtering by author. Every mutator does nothing when no user
  is signed in.
- **Post list** (`BlogList`). It shows six posts a page, has a page count, and ignores
  page changes out of range.
- **Post form** (`CreatePost`). It parses tags and fills in a default excerpt. It knows
  when the submit button is enabled and where submitted data goes.
- **Navigation bar** (`Navbar`). It offers up to five case-insensitive search
  suggestions and tracks the search box state.

The collections are classes. Each holds a sequence of records in creation order, an id
counter and a logical clock. A ghost invariant states the schema rules and strictly
increasing ids and creation times. Because of that invariant, "newest first" is the
reverse of the filtered collection. Each controller handler is a method. It returns
`Ok(status, value)` or `Refused(status, message)`, or `Raised(error)` for errors passed
on to the middleware. Its postcondition states the whole new state of the collection.
The handlers that need both collections take the comment collection as an argument:
reading a post and listing posts count and order its comments, deleting a post cascades
to them, and `PostStore.PostCollection.CreateComment` runs `createComment` with the
post looked up in the post collection. `PostStore.Attached` (every comment is on a
stored post) is kept by both of the operations that could break it.

Modules:

| module | what it models |
|---|---|
| `Common`, `Seqs`, `Paging`, `Text` | ids and principals; `filter`/`reverse`/`slice`; `parseInt(x) \|\| d` and `Math.ceil`; JavaScript `trim`, ASCII `toLowerCase`, `includes`, `split`, `join`, `substring` |
| `ErrorHandler` | the error middleware |
| `Toggle` | the push/filter toggle behind likes and bookmarks |
| `CommentModel`, `CommentStore` | the Comment schema, the comment controller |
| `PostModel`, `PostStore` | the BlogPost schema, the blog controller |
| `Chatbot` | the chatbot controller |
| `BlogContext`, `BlogList`, `CreatePost`, `Navbar` | the four client files |

## Model

| member | source | states |
|---|---|---|
| Paging.CeilDiv | server/controllers/commentController.js:28 | `Math.ceil(total / limit)` is the least page count covering `total` for a positive limit (and the matching bound for a negative one) |
| Common.CanMutate | server/controllers/blogController.js:83 | an administrator may change or delete anything; anyone else only what they authored (the same guard at blogController.js:102 and commentController.js:68 and :90) |
| ErrorHandler.ValidationFailure | server/middleware/errorHandler.js:18-19 | a ValidationError carries one message per failing path, in path order |
| ErrorHandler.Winner | server/middleware/errorHandler.js:8-30 | the rule whose assignment survives is one that applies, and no rule checked after it applies (last check wins) |
| ErrorHandler.Translate | server/middleware/errorHandler.js:32-35 | every answer has `success: false` and a non-empty message; the stack is included exactly when NODE_ENV is 'development', and it is the error's stack |
| ErrorHandler.Handle | server/middleware/errorHandler.js:1-37 | the handler's sequence of overwrites yields exactly the rule table `Translate` |
| ErrorHandler.ValidationIs400 | server/middleware/errorHandler.js:18-21 | a validation failure is answered with 400 and the field messages joined by ", " |
| ErrorHandler.StoreErrorIs500 | server/middleware/errorHandler.js:32-34 | an error without a status code is answered with 500 and its own message |
| ErrorHandler.CastIs404 | server/middleware/errorHandler.js:8-10 | a CastError (malformed id) is answered with 404 "Resource not found" |
| ErrorHandler.DuplicateIs400 | server/middleware/errorHandler.js:13-15 | a duplicate key is answered with 400 "Duplicate field value entered" unless a later check overrides it |
| Toggle.Toggle | server/controllers/commentController.js:109-114 | the new flag is the negation of prior membership; exactly the caller's membership flips and every other account keeps its multiplicity; a duplicate-free list stays duplicate-free and its length moves by one |
| Toggle.RemoveFromNoDup | server/controllers/commentController.js:111 | filtering the caller out of a duplicate-free list removes exactly one element |
| Toggle.RemoveKeepsOthers | server/controllers/commentController.js:111 | the filter keeps every other account as often as before |
| Toggle.ToggleTwice | server/controllers/commentController.js:109-114 | toggling twice restores every account's membership, and the list itself when the caller was absent |
| Toggle.ToggleTwiceSameSet | server/controllers/blogController.js:121-126 | on a duplicate-free list, toggling twice gives back the same multiset |
| CommentModel.ContentFailures | server/models/Comment.js:4-9 | no failure exactly when the trimmed content is non-empty and at most 1000 characters; at most one message per path; blank content gives 'Please provide comment content' |
| CommentModel.NewComment | server/controllers/commentController.js:47-52 | the created comment has trimmed content, the caller as author, the post, the given parent or none, no likes, and is not edited |
| CommentModel.Replies | server/models/Comment.js:43-47 | the replies virtual holds exactly the comments whose parent is this comment |
| CommentStore.IndexOf | server/controllers/commentController.js:65-66 | findById finds a comment with that id, or reports that none exists |
| CommentStore.Edited | server/controllers/commentController.js:72-76 | an edit sets content, isEdited and editedAt, and keeps id, author, post, parent, likes and creation time |
| CommentStore.AfterDelete | server/controllers/commentController.js:94-95 | after the delete, exactly the comments that are neither the deleted one nor its direct replies remain |
| CommentStore.TopLevelOf | server/controllers/commentController.js:11 | the query keeps exactly the comments of the post with no parent |
| CommentStore.Threads | server/controllers/commentController.js:13-17 | each listed comment is paired with its replies virtual |
| CommentStore.NewestWindow | server/controllers/commentController.js:11-20 | a page holds at most `limit` top-level comments of the post, creation times strictly decreasing, each with replies oldest first |
| CommentStore.RepliesOldestFirst | server/controllers/commentController.js:13-17 | the replies come in increasing creation time |
| CommentStore.DeleteLeavesGrandchildren | server/controllers/commentController.js:94-95 | a deleted comment's direct reply is removed, while a reply to that reply survives with a parent that no longer exists |
| CommentStore.ParentIsOlder | server/controllers/commentController.js:42-51 | a reply's parent id is smaller than its own id, so parent links never form a cycle |
| CommentStore.CommentCollection.GetComments | server/controllers/commentController.js:5-34 | page and limit default to 1 and 20; a negative offset is a store error; otherwise total, pages and count are right and the data is the offset window of the post's top-level comments, newest first, each with replies oldest first |
| CommentStore.CommentCollection.Create | server/controllers/commentController.js:37-60 | 404 'Blog post not found', then 404 'Parent comment not found' (a parent on any post is accepted), then the validation failure, each changing nothing; otherwise exactly one comment with the next id is appended and the rest stay as they were |
| CommentStore.CommentCollection.Save | server/controllers/commentController.js:47-52 | saving a comment that passed validation, with the next id and the current time, appends it and keeps the collection invariant |
| CommentStore.CommentCollection.Update | server/controllers/commentController.js:63-82 | 404 before the ownership check, 401 for a caller who is neither author nor admin, then the validation failure, each changing nothing; it succeeds exactly when the comment exists, the caller is its author or an admin and the content is valid, and then only that comment changes, to its edited form |
| CommentStore.CommentCollection.Delete | server/controllers/commentController.js:85-101 | the same 404 and 401 checks, changing nothing; it succeeds exactly when the comment exists and the caller is its author or an admin, and then the collection becomes `AfterDelete` and the counters stay |
| CommentStore.CommentCollection.DeleteForPost | server/controllers/blogController.js:106 | every comment on the post is removed and every other comment kept in order |
| CommentStore.CommentCollection.Like | server/controllers/commentController.js:104-126 | 404 for a missing comment; otherwise the like list is toggled and the answer reports the new membership and count |
| PostModel.ParseStatus | server/models/BlogPost.js:41-45 | only 'draft' and 'published' are statuses |
| PostModel.NormalizeTag | server/models/BlogPost.js:19-23 | a stored tag is trimmed and lower-case, and lower-casing and trimming commute |
| PostModel.NormalizeTags | server/models/BlogPost.js:19-23 | each tag goes through the setters, in order |
| PostModel.InputFailures | server/models/BlogPost.js:4-18 | no failure exactly when the body is `Accepted`: on create, title and content are present; every field present obeys its rule |
| PostModel.ReadTime | server/models/BlogPost.js:46-52 | empty content reads in 0 minutes |
| PostModel.ReadTimeBounds | server/models/BlogPost.js:46-52 | non-empty content reads in the least number of minutes covering its space-separated words at 200 words a minute, and at least one minute |
| PostModel.AutoExcerpt | server/models/BlogPost.js:83-88 | the generated excerpt is the first 150 characters of the content plus "...", and fits the 300-character rule |
| PostModel.PreSave | server/models/BlogPost.js:83-88 | the hook fills an empty excerpt from non-empty content and changes nothing else |
| PostModel.PreSaveIdempotent | server/models/BlogPost.js:83-88 | running the hook twice equals running it once; with content, the excerpt is never empty afterwards and stays within its bound |
| PostModel.NewPost | server/models/BlogPost.js:3-61 | a created post obeys every schema rule and has trimmed title, the given author, no likes or bookmarks, the body's tags trimmed and lower-cased (none when absent), the body's image ('' when absent), the body's status, views and readTime when given, and otherwise the defaults: published, 0 views, readTime from content; excerpt from content when none was given |
| PostModel.Patched | server/controllers/blogController.js:87 | the update sets exactly the fields the body carries (title, content, excerpt, tags, image, author, status, readTime, views) through the setters, keeps likes, bookmarks, id and creation time, and the result still obeys the schema |
| PostModel.CommentsOf | server/models/BlogPost.js:70-74 | the comments virtual holds exactly the comments on the post |
| PostModel.CommentsCountAppend | server/models/BlogPost.js:64-69 | adding a comment raises its own post's count by one and no other post's count |
| PostModel.CommentsCountPartition | server/models/BlogPost.js:64-69 | a post's comment count plus the comments elsewhere is the whole collection |
| PostStore.IndexOf | server/controllers/blogController.js:42-50 | findById finds a post with that id, or reports that none exists |
| PostStore.Selected | server/controllers/blogController.js:12-16 | only published posts are selected; a query with no search, tags or author selects every published post; a tags query rejects a post that has none of the listed tags |
| PostStore.SelectedBy | server/controllers/blogController.js:12-16 | the query object as a filter: it keeps exactly the selected posts, all of them published |
| PostStore.TagList | server/controllers/blogController.js:15 | the tag filter is the comma pieces, each trimmed and lower-cased |
| PostStore.WithCounts | server/controllers/blogController.js:20 | each listed post carries its commentsCount |
| PostStore.Page | server/controllers/blogController.js:18-31 | page and limit echo the request, total counts every matching post, count is the number of posts on the page and at most the limit, and an offset past the matches gives an empty page |
| PostStore.OrderedWindow | server/controllers/blogController.js:21-23 | a page holds only posts the filter keeps, in increasing creation time for 'asc' and decreasing otherwise |
| PostStore.PageContents | server/controllers/blogController.js:18-31 | a page holds at most `limit` posts, each kept by the filter and counted with its comments; total counts all kept posts; pages is `Math.ceil(total / limit)` |
| PostStore.PageOrder | server/controllers/blogController.js:21 | the page is sorted by creation time, ascending for 'asc' and descending otherwise |
| PostStore.CascadeClearsPost | server/controllers/blogController.js:106-107 | after the cascade the deleted post has no comments, and every other post keeps all of its own |
| PostStore.CommentsNewestFirst | server/controllers/blogController.js:44-48 | read newest first from a well-formed comment collection, a post's comments are exactly its comments, in strictly decreasing creation time |
| PostStore.AttachedAfterCascade | server/controllers/blogController.js:105-106 | removing a post with its comments leaves every remaining comment on a remaining post |
| PostStore.PostCollection.Ids | server/controllers/commentController.js:39-40 | the ids the store can find |
| PostStore.PostCollection.GetBlogPosts | server/controllers/blogController.js:5-37 | defaults page 1 and limit 10; a negative offset is a store error; otherwise the page of published posts matching the search, tags and author, sorted by creation time, with total and the order stated |
| PostStore.PostCollection.GetBookmarkedPosts | server/controllers/blogController.js:156-181 | the page of the caller's bookmarked published posts, newest first |
| PostStore.PostCollection.GetBlogPost | server/controllers/blogController.js:40-59 | 404 for a missing post; otherwise views go up by one, the pre-save hook runs and only that post changes; its comments are exactly the comment collection's comments on the post, in strictly decreasing creation time |
| PostStore.PostCollection.Create | server/controllers/blogController.js:62-75 | the author is always the caller; an invalid body raises the validation failure and changes nothing; otherwise exactly one post is appended |
| PostStore.PostCollection.Save | server/controllers/blogController.js:66 | saving a post that obeys the schema, with the next id and the current time, appends it and keeps the collection invariant |
| PostStore.PostCollection.Update | server/controllers/blogController.js:78-94 | 404, then 401 for a caller who is neither author nor admin, then the validation failure, each changing nothing; it succeeds exactly when the post exists, the caller is its author or an admin and the body passes the update validators, and then only that post changes, to `Patched` |
| PostStore.PostCollection.Delete | server/controllers/blogController.js:97-113 | the same 404 and 401 checks, changing nothing; it succeeds exactly when the post exists and the caller is its author or an admin, and then the post and all of its comments are removed and nothing else, and when every comment belonged to a stored post, every remaining one still does |
| PostStore.PostCollection.CreateComment | server/controllers/commentController.js:37-60 | the post is looked up in the post collection: a missing one is 404 'Blog post not found', then 404 'Parent comment not found', then the comment validation failure, each changing nothing; it succeeds exactly when the post is stored, the parent (if any) exists and the content is valid, and then the new comment (caller as author, the given parent or none, the next id) is appended to the comment collection; no comment is left on a missing post |
| PostStore.PostCollection.Like | server/controllers/blogController.js:116-133 | likes toggled and saved through the hook, bookmarks untouched, new membership and count reported |
| PostStore.PostCollection.Bookmark | server/controllers/blogController.js:136-153 | bookmarks toggled and saved through the hook, likes untouched, new membership and count reported |
| Chatbot.AnyKeyword | server/controllers/chatbotController.js:57 | `some` keyword is contained in the message |
| Chatbot.FirstMatch | server/controllers/chatbotController.js:56-61 | the chosen entry matches and no earlier entry does; none is chosen only when no entry matches |
| Chatbot.ReplyFor | server/controllers/chatbotController.js:53-61 | the reply of a matching entry with no earlier matching entry, or the fallback when no entry matches |
| Chatbot.FirstMatchConcat | server/controllers/chatbotController.js:56-61 | scanning a table made of two parts finds the first part's match when it has one, and otherwise the second part's match shifted past the first part |
| Chatbot.Respond | server/controllers/chatbotController.js:4-63 | a missing or blank message gets 400 and the type-a-message reply, and only such a message does |
| Chatbot.Scan | server/controllers/chatbotController.js:53-61 | the loop's reply is the first matching entry's reply, or the fallback when none matches |
| Chatbot.ChatbotReply | server/controllers/chatbotController.js:2-63 | the handler answers exactly as `Respond` |
| Chatbot.FirstMatchIs | server/controllers/chatbotController.js:56-61 | a matching entry with no earlier match is the one chosen |
| Chatbot.BlankRefused | server/controllers/chatbotController.js:4-8 | refused with 400 exactly when the message is missing or all whitespace |
| Chatbot.IgnoresCase | server/controllers/chatbotController.js:10 | a message and its lower-cased form get the same answer |
| Chatbot.ShadowedNeverFirst | server/controllers/chatbotController.js:56-61 | an entry whose every keyword contains a keyword of an earlier entry is never chosen |
| Chatbot.MyBlogsUnreachable | server/controllers/chatbotController.js:20-23 | the 'my blogs' / 'my posts' entry is never chosen, whatever the message |
| Chatbot.SupportTeamShadowed | server/controllers/chatbotController.js:43-45 | a message containing 'support team' is answered by the help entry or an earlier one, never by the contact entry |
| Chatbot.SupportTeamIsHelp | server/controllers/chatbotController.js:43-45 | the message 'support team' gets the help entry's reply |
| BlogContext.ToClientAuthor | src/context/BlogContext.jsx:34-41 | the author's fields are copied, createdAt becoming joinDate |
| BlogContext.ToClientPost | src/context/BlogContext.jsx:27-46 | the API id becomes `id`; title, content, excerpt, tags, image, likes, bookmarks, createdAt and updatedAt are copied; the author is renamed field by field; a missing commentsCount becomes 0 |
| BlogContext.ToClientPosts | src/context/BlogContext.jsx:27-47 | the mapping is applied to each post, in order |
| BlogContext.ToClientComment | src/context/BlogContext.jsx:140-155 | post becomes postId and parent parentId; the other fields are copied |
| BlogContext.ToClientComments | src/context/BlogContext.jsx:140-155 | the mapping is applied to each comment, in order |
| BlogContext.SearchPosts | src/context/BlogContext.jsx:177-186 | a query blank after trimming returns the posts unchanged; any other query filters them in order |
| BlogContext.SearchFinds | src/context/BlogContext.jsx:180-185 | a non-blank search keeps exactly the posts whose lower-cased title, content or some tag contains the lower-cased query |
| BlogContext.SearchIdempotent | src/context/BlogContext.jsx:177-186 | searching the results again with the same query changes nothing |
| BlogContext.SearchIgnoresCase | src/context/BlogContext.jsx:180 | the case of the query does not matter |
| BlogContext.SearchNarrows | src/context/BlogContext.jsx:180-185 | a query containing another finds a subset of what the other finds |
| BlogContext.GetPostById | src/context/BlogContext.jsx:188-190 | none exactly when no post has the id; otherwise a post with that id |
| BlogContext.GetPostByIdIsFirst | src/context/BlogContext.jsx:188-190 | the post found is the first post with that id |
| BlogContext.GetPostsByAuthor | src/context/BlogContext.jsx:192-194 | exactly the posts whose author id is the argument |
| BlogContext.AuthorSearchCommute | src/context/BlogContext.jsx:177-194 | restricting to an author and searching give the same result in either order |
| BlogContext.LoadedPostFound | src/context/BlogContext.jsx:27-46 | after loading, each API post is found by its API id |
| BlogContext.CommentsOnPost | src/context/BlogContext.jsx:198 | exactly the cached comments whose postId is the argument |
| BlogContext.LoadedCommentsKept | src/context/BlogContext.jsx:137-160 | when the API returned only the post's comments, getCommentsByPost gives back the whole loaded cache |
| BlogContext.BlogProvider.constructor | src/context/BlogContext.jsx:15-22 | mounting starts with empty caches and issues loadPosts |
| BlogContext.BlogProvider.IfSignedIn | src/context/BlogContext.jsx:65 | a mutator issues its call exactly when a user is signed in |
| BlogContext.BlogProvider.CreatePost | src/context/BlogContext.jsx:63-74 | with no user nothing happens; otherwise the create call is issued; the caches stay |
| BlogContext.BlogProvider.UpdatePost | src/context/BlogContext.jsx:76-86 | with no user nothing happens; otherwise the update call is issued |
| BlogContext.BlogProvider.DeletePost | src/context/BlogContext.jsx:88-98 | with no user nothing happens; otherwise the delete call is issued |
| BlogContext.BlogProvider.LikePost | src/context/BlogContext.jsx:100-110 | with no user nothing happens; otherwise the like call is issued |
| BlogContext.BlogProvider.BookmarkPost | src/context/BlogContext.jsx:112-122 | with no user nothing happens; otherwise the bookmark call is issued |
| BlogContext.BlogProvider.AddComment | src/context/BlogContext.jsx:124-135 | with no user nothing happens; otherwise the comment call is issued with the content only |
| BlogContext.BlogProvider.LikeComment | src/context/BlogContext.jsx:162-175 | with no user nothing happens; otherwise the comment-like call is issued |
| BlogContext.BlogProvider.PostsLoaded | src/context/BlogContext.jsx:24-52 | a successful response replaces the post cache with the mapped posts; a failed one leaves it |
| BlogContext.BlogProvider.CommentsLoaded | src/context/BlogContext.jsx:137-160 | a successful response replaces the comment cache with the mapped comments; a failed one leaves it |
| BlogContext.BlogProvider.GetCommentsByPost | src/context/BlogContext.jsx:196-199 | issues loadComments whatever the user, and returns the already cached comments on that post |
| BlogList.TotalPages | src/components/BlogList.jsx:15 | the fewest pages of six holding all posts; zero exactly when there are no posts |
| BlogList.PagePosts | src/components/BlogList.jsx:10-13 | page p holds the posts from (p-1)*6 on, at most six, in order; non-empty for an existing page, full before the last, empty past it |
| BlogList.PagesCoverPosts | src/components/BlogList.jsx:10-15 | reading pages 1 to totalPages in turn gives back exactly the posts |
| BlogList.Render | src/components/BlogList.jsx:23-78 | "No posts found." exactly for no posts; the pagination bar exactly when there are more than six; Previous disabled on page 1, Next on the last page, buttons numbered 1..totalPages, the highlighted page being the current one |
| BlogList.ButtonsAccepted | src/components/BlogList.jsx:53-56 | every page button names a page the handler accepts and that shows posts |
| BlogList.Pagination.constructor | src/components/BlogList.jsx:8 | the current page starts at 1 |
| BlogList.Pagination.HandlePageChange | src/components/BlogList.jsx:17-21 | a page below 1 or past the last is ignored; any other becomes current and scrolls to the top |
| CreatePost.CleanTags | src/components/CreatePost.jsx:35 | pieces are trimmed and empty ones dropped; comma-free pieces give non-empty, trimmed, comma-free tags |
| CreatePost.ParseTags | src/components/CreatePost.jsx:35 | every parsed tag is non-empty, trimmed and comma-free, and there are at most one more tag than commas |
| CreatePost.ParseJoinRoundTrip | src/components/CreatePost.jsx:22-35 | re-parsing the ", "-joined tags of the edit form gives back the tags when each is non-empty, trimmed and comma-free |
| CreatePost.CommaTagSplits | src/components/CreatePost.jsx:22-35 | a tag containing a comma comes back as two tags |
| CreatePost.ExcerptOrDefault | src/components/CreatePost.jsx:36 | a non-empty excerpt is kept; otherwise the first 150 characters of content and "..."; the result is never empty |
| CreatePost.ExcerptAgreesWithServer | src/components/CreatePost.jsx:36 | for non-empty content the form fills in the same excerpt as the server's pre-save hook |
| CreatePost.ToPostData | src/components/CreatePost.jsx:33-37 | the data sent is the fields as typed, with tags parsed and the excerpt defaulted |
| CreatePost.DefaultValues | src/components/CreatePost.jsx:18-24 | editing pre-fills the post's fields with the tags joined by ", "; creating starts empty |
| CreatePost.EditRoundTrip | src/components/CreatePost.jsx:18-37 | submitting an untouched edit form sends back the post's title, content, image and clean tags, and its excerpt when it had one |
| CreatePost.RequiredErrors | src/components/CreatePost.jsx:75-120 | no error exactly when title and content are non-empty |
| CreatePost.SubmitEnabledIff | src/components/CreatePost.jsx:162 | submit is enabled exactly when idle and neither title nor content is all whitespace, and then the required rules pass |
| CreatePost.SubmitEnabled | src/components/CreatePost.jsx:162 | enabled exactly when idle and neither title nor content is all whitespace |
| CreatePost.PostForm.constructor | src/components/CreatePost.jsx:10 | the form starts idle |
| CreatePost.PostForm.Submit | src/components/CreatePost.jsx:30-49 | required errors stop the submission; otherwise the data goes to onSave when editing, or to createPost followed by navigation to '/'; isSubmitting ends false |
| Navbar.Matches | src/components/Navbar.jsx:16-17 | exactly the items whose lower-cased form contains the lower-cased query |
| Navbar.FilteredSuggestions | src/components/Navbar.jsx:16-18 | the first min(5, matches) matches, in order |
| Navbar.SuggestionsExact | src/components/Navbar.jsx:16-18 | every suggestion is a matching item; with at most five matches, every matching item is suggested |
| Navbar.EmptyQuerySuggestsFirstFive | src/components/Navbar.jsx:16-18 | the empty query suggests the first min(5, n) items |
| Navbar.SuggestionsNonEmptyIff | src/components/Navbar.jsx:90 | there is a suggestion exactly when some item contains the query, ignoring case |
| Navbar.NavbarState.DropdownVisible | src/components/Navbar.jsx:90 | the dropdown shows exactly when suggestions are on and some item contains the query, ignoring case |
| Navbar.SuggestionsIgnoreCase | src/components/Navbar.jsx:17 | the case of the query does not matter |
| Navbar.MatchesNarrow | src/components/Navbar.jsx:17 | a query containing another matches a subset of the other's matches |
| Navbar.NavbarState.constructor | src/components/Navbar.jsx:10-12 | empty query, menu closed, suggestions hidden |
| Navbar.NavbarState.Type | src/components/Navbar.jsx:76-80 | the query becomes the text, suggestions are shown, onSearch gets the text; the dropdown shows exactly when the text has suggestions |
| Navbar.NavbarState.Focus | src/components/Navbar.jsx:81 | suggestions are shown exactly when there are some, and then the dropdown is visible |
| Navbar.NavbarState.Blur | src/components/Navbar.jsx:46-55 | suggestions stay only when focus moves inside the search container |
| Navbar.NavbarState.Search | src/components/Navbar.jsx:20-24 | onSearch gets the current query and suggestions close |
| Navbar.NavbarState.SuggestionClick | src/components/Navbar.jsx:26-30 | the suggestion becomes the query, goes to onSearch, and no dropdown is visible |
| Navbar.NavbarState.LogoClick | src/components/Navbar.jsx:38-43 | the query is cleared, onSearch gets '', the bar navigates to '/' and the menu closes |
| Navbar.NavbarState.Logout | src/components/Navbar.jsx:32-36 | logs out, navigates to '/', closes the menu |
| Navbar.NavbarState.ToggleMenu | src/components/Navbar.jsx:141 | the mobile menu flips |

## Left out

- I/O and time. The database, HTTP, the browser (`localStorage`, `window.scrollTo`,
  navigation) and `new Date()` become state and parameters:
  - a logical clock for `createdAt`/`editedAt`;
  - a `requests` log for the client's API calls;
  - `effects`, `searches` and `navigations` logs for callbacks and navigation.
  - the `console.log` and `console.error` calls (server/controllers/blogController.js:65
    and :67, server/controllers/chatbotController.js:65, server/middleware/errorHandler.js:5)
    write to the process log only and are dropped; so are the client's
    `console.log("postData:", …)` (src/context/BlogContext.jsx:64) and the `console.error`
    calls in its catch blocks (src/context/BlogContext.jsx:50, :72, :84, :96, :108, :120,
    :133, :158, :173).
- The server side does not maintain `updatedAt` (the schema's timestamps): a stored post
  has no such field. The client's `ApiPost` carries it and `BlogContext.ToClientPost`
  passes it through unchanged. `populate` of author details is not modelled on the
  server side.
- Asynchrony and concurrency. Each request is one atomic step. The client's async API
  calls are split into issuing a request (`BlogProvider` mutators) and its response
  arriving (`PostsLoaded`, `CommentsLoaded`). The reload that follows a successful call,
  and `likeComment`'s follow-up `loadComments`, are not modelled. Races between
  read-modify-write requests are not modelled.
- PostStore.PostCollection.GetBlogPosts:
  - Always sorts by creation time. A `sortBy` naming another field is not modelled.
  - The `$text` search is decided by a database text index. It is the parameter
    `textMatch`.
- Malformed ObjectIds (a CastError from `findById`) are not modelled. Ids are `nat`, and
  a missing id is a lookup miss. `ErrorHandler.CastIs404` states how such an error would
  be answered.
- PostModel.PostInput:
  - `likes`, `bookmarks` and timestamps in a request body are not modelled.
  - An absent excerpt is the empty string.
  - Schema casting of wrongly typed fields is not modelled.
- Validation follows Mongoose's order:
  - setters run before validators;
  - one message per path, in schema order;
  - validation runs before `pre('save')`;
  - update validators run only on the paths the body carries;
  - `save()` runs the hook, `findByIdAndUpdate` does not.
- Text:
  - Strings are sequences of Unicode scalar values. JavaScript measures lengths and
    `substring` in UTF-16 code units, so limits differ for characters outside the Basic
    Multilingual Plane.
  - `toLowerCase` is ASCII-only.
- Chatbot.Respond: a `message` that is not a string (the controller's 500 reply) is not
  modelled. A missing message is `None`.
- Authentication and authorisation plumbing (JWT, `protect`, the User model) is not part
  of this model. The principal is an input.
- Rendering (JSX) is not modelled, beyond what `BlogList.Render` and
  `Navbar.NavbarState.DropdownVisible` decide.
- `PostStore.Attached` is stated only for `PostStore.PostCollection.CreateComment` and
  `PostStore.PostCollection.Delete`. The other post and comment mutators never change a
  post id and only edit or remove comments, so they cannot break it, but no ensures says
  so. `CommentStore.CommentCollection.Create` takes the set of post ids as an argument
  and is tied to the post collection only through `CreateComment`.
- Behaviour the model keeps as the code has it:
  - deleting a comment removes only its direct replies, so grandchildren are left
    dangling (`CommentStore.DeleteLeavesGrandchildren`). The comment
    `// Delete comment and its replies` at server/controllers/commentController.js:84
    reads as more, but the `deleteMany({ parent })` at :94 matches direct replies only;
  - a reply's parent may be on another post: `createComment` looks the parent up by id
    alone;
  - a caller who is neither the author nor an administrator is refused with 401;
  - an update body may change a post's author, since `updateBlogPost` passes the whole
    body to `findByIdAndUpdate`.

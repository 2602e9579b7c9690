/**
 * scrape_aggregated_showtimes: the ASP.NET postback session that walks the
 * show-date dropdown of one movie's showtimes page. The first GET and every
 * POST are abstracted: the GET's outcome is a parameter, and the server is a
 * function from (index of the post, request) to its outcome.
 */
module SessionWalker {
  import opened Wrappers
  import opened OrderedDict
  import opened Showtimes
  import opened ShowtimesProperties
  import opened Restructure

  /** MAX_DAYS_TO_SCRAPE. */
  const MaxDaysToScrape: nat := 5

  /** The form field of the date dropdown, also sent as `__EVENTTARGET`. */
  const DateControl: string := "ctl00$cphContent$ctl00$ddlShowdate"

  /** An `<option>` of the dropdown: its `value` attribute, if any, and its text. */
  datatype DateOption = DateOption(value: Option<string>, text: string)

  /** A valued option, as kept in `date_options`. */
  datatype DateChoice = DateChoice(value: string, text: string)

  /** What the walker reads from the first page. */
  datatype FirstPage = FirstPage(
    dateDropdown: Option<seq<DateOption>>,
    viewState: Option<string>,
    eventValidation: Option<string>,
    elements: seq<Element>)

  /** The initial GET: a page, or a failure (an error status or a transport error, both raised). */
  datatype GetOutcome = Loaded(page: FirstPage) | GetFailed

  /** The form data of one postback. */
  datatype PostRequest = PostRequest(
    eventTarget: string,
    eventArgument: string,
    lastFocus: string,
    viewState: string,
    eventValidation: string,
    dateValue: string)

  /** A POST's answer: its status code and, for the page it carries, the tokens found and the list elements. */
  datatype Reply = Reply(status: int, viewState: Option<string>, eventValidation: Option<string>, elements: seq<Element>)

  /** A POST either comes back with a reply or raises (a transport error). */
  datatype PostOutcome = Answered(reply: Reply) | PostFailed

  /** The function's result: the 'N/A' string, or the JSON list of cinema entries. */
  datatype WalkResult = NoShowtimes | Aggregated(cinemas: seq<CinemaEntry>)

  /** The two hidden form fields carried from page to page. */
  datatype Tokens = Tokens(viewState: string, eventValidation: string)

  predicate Succeeded(o: PostOutcome) {
    o.Answered? && o.reply.status == 200
  }

  /** The options whose `value` is truthy, in document order. */
  function ValuedOptions(opts: seq<DateOption>): (r: seq<DateChoice>)
    ensures |r| <= |opts|
    ensures forall i :: 0 <= i < |r| ==> r[i].value != ""
  {
    if opts == [] then []
    else
      var o := opts[|opts| - 1];
      ValuedOptions(opts[..|opts| - 1]) + (if o.value.Some? && o.value.value != "" then [DateChoice(o.value.value, o.text)] else [])
  }

  /** `date_options`, cut to MAX_DAYS_TO_SCRAPE. */
  function DateChoices(opts: seq<DateOption>): (r: seq<DateChoice>)
    ensures |r| <= MaxDaysToScrape
    ensures r <= ValuedOptions(opts)
    ensures |r| < MaxDaysToScrape ==> r == ValuedOptions(opts)
  {
    var valued := ValuedOptions(opts);
    if |valued| <= MaxDaysToScrape then valued else valued[..MaxDaysToScrape]
  }

  /** The tokens of the first page; a missing one is sent as "". */
  function InitialTokens(page: FirstPage): (t: Tokens)
    ensures t.viewState == if page.viewState.Some? then page.viewState.value else ""
    ensures t.eventValidation == if page.eventValidation.Some? then page.eventValidation.value else ""
  {
    Tokens(page.viewState.GetOr(""), page.eventValidation.GetOr(""))
  }

  /** A successful reply replaces each token that its page carries. */
  function Refreshed(t: Tokens, r: Reply): (u: Tokens)
    ensures u.viewState == if r.viewState.Some? then r.viewState.value else t.viewState
    ensures u.eventValidation == if r.eventValidation.Some? then r.eventValidation.value else t.eventValidation
  {
    Tokens(r.viewState.GetOr(t.viewState), r.eventValidation.GetOr(t.eventValidation))
  }

  /** The tokens after the outcomes `outcomes`: only successful replies are read. */
  function TokensAfter(t0: Tokens, outcomes: seq<PostOutcome>): (t: Tokens)
    ensures (forall j :: 0 <= j < |outcomes| ==> !Succeeded(outcomes[j])) ==> t == t0
  {
    if outcomes == [] then t0
    else
      var t := TokensAfter(t0, outcomes[..|outcomes| - 1]);
      var o := outcomes[|outcomes| - 1];
      if Succeeded(o) then Refreshed(t, o.reply) else t
  }

  /** The form data posted for `choice` with tokens `t`. */
  function RequestFor(t: Tokens, choice: DateChoice): PostRequest {
    PostRequest(DateControl, "", "", t.viewState, t.eventValidation, choice.value)
  }

  /** What the server answered to each of `posts`. */
  function Outcomes(respond: (nat, PostRequest) -> PostOutcome, posts: seq<PostRequest>): (r: seq<PostOutcome>)
    ensures |r| == |posts|
  {
    seq(|posts|, k requires 0 <= k < |posts| => respond(k, posts[k]))
  }

  /**
   * `all_dates_data` after the first page and the outcomes of the posts for
   * `choices[1..]`: each successful reply's page is stored under its date label.
   */
  function CollectedDates(choices: seq<DateChoice>, first: seq<Element>, outcomes: seq<PostOutcome>): (d: DatedShowtimes)
    requires |outcomes| < |choices|
    ensures AllValid(d)
  {
    if outcomes == [] then
      ParsedPageShape(first);
      Empty<PageShowtimes>().Put(choices[0].text, ParsedPage(first))
    else
      var n := |outcomes|;
      var prev := CollectedDates(choices, first, outcomes[..n - 1]);
      var o := outcomes[n - 1];
      if Succeeded(o) then
        ParsedPageShape(o.reply.elements);
        prev.Put(choices[n].text, ParsedPage(o.reply.elements))
      else prev
  }

  /** There is something to walk: the page loaded, has the dropdown, and the dropdown a valued option. */
  predicate Walkable(initial: GetOutcome) {
    initial.Loaded? && initial.page.dateDropdown.Some? && DateChoices(initial.page.dateDropdown.value) != []
  }

  /** The posts are those for `choices[1..]`, in order, each carrying the tokens of the previous successful reply. */
  predicate PostsFollow(choices: seq<DateChoice>, t0: Tokens, outcomes: seq<PostOutcome>, posts: seq<PostRequest>) {
    && |outcomes| == |posts| < |choices|
    && (forall j :: 0 <= j < |posts| ==> posts[j] == RequestFor(TokensAfter(t0, outcomes[..j]), choices[j + 1]))
    && (forall j :: 0 <= j < |posts| - 1 ==> Succeeded(outcomes[j]))
  }

  /** The walk ended early only because the last post was not answered with 200. */
  predicate StoppedOnlyOnFailure(choices: seq<DateChoice>, outcomes: seq<PostOutcome>) {
    |outcomes| < |choices| - 1 ==> outcomes != [] && !Succeeded(outcomes[|outcomes| - 1])
  }

  lemma OutcomesSnoc(respond: (nat, PostRequest) -> PostOutcome, posts: seq<PostRequest>, p: PostRequest)
    ensures Outcomes(respond, posts + [p]) == Outcomes(respond, posts) + [respond(|posts|, p)]
  {
  }

  lemma PostsFollowStep(choices: seq<DateChoice>, t0: Tokens, outcomes: seq<PostOutcome>, posts: seq<PostRequest>, o: PostOutcome)
    requires PostsFollow(choices, t0, outcomes, posts) && |posts| + 1 < |choices|
    requires forall j :: 0 <= j < |posts| ==> Succeeded(outcomes[j])
    ensures PostsFollow(choices, t0, outcomes + [o], posts + [RequestFor(TokensAfter(t0, outcomes), choices[|posts| + 1])])
  {
    var outcomes' := outcomes + [o];
    assert outcomes'[..|outcomes|] == outcomes;
    forall j | 0 <= j < |outcomes| ensures outcomes'[..j] == outcomes[..j] {
    }
  }

  lemma CollectedDatesStep(choices: seq<DateChoice>, first: seq<Element>, outcomes: seq<PostOutcome>, o: PostOutcome)
    requires |outcomes| + 1 < |choices|
    ensures CollectedDates(choices, first, outcomes + [o]) ==
      if Succeeded(o) then CollectedDates(choices, first, outcomes).Put(choices[|outcomes| + 1].text, ParsedPage(o.reply.elements))
      else CollectedDates(choices, first, outcomes)
  {
    assert (outcomes + [o])[..|outcomes|] == outcomes;
  }

  lemma TokensAfterStep(t0: Tokens, outcomes: seq<PostOutcome>, o: PostOutcome)
    ensures TokensAfter(t0, outcomes + [o]) == if Succeeded(o) then Refreshed(TokensAfter(t0, outcomes), o.reply) else TokensAfter(t0, outcomes)
  {
    assert (outcomes + [o])[..|outcomes|] == outcomes;
  }

  /** The state of the postback loop after the posts `posts`, whose outcomes are `outcomes`. */
  ghost predicate Walking(choices: seq<DateChoice>, t0: Tokens, first: seq<Element>, respond: (nat, PostRequest) -> PostOutcome,
                          posts: seq<PostRequest>, outcomes: seq<PostOutcome>, tokens: Tokens, allDates: DatedShowtimes, stopped: bool)
  {
    && outcomes == Outcomes(respond, posts)
    && PostsFollow(choices, t0, outcomes, posts)
    && tokens == TokensAfter(t0, outcomes)
    && (!stopped && posts != [] ==> Succeeded(outcomes[|posts| - 1]))
    && (stopped ==> posts != [] && outcomes[|posts| - 1].Answered? && !Succeeded(outcomes[|posts| - 1]))
    && allDates == CollectedDates(choices, first, outcomes)
  }

  /** A post that comes back with 200: its page is stored and its tokens are taken up. */
  lemma WalkSucceeded(choices: seq<DateChoice>, t0: Tokens, first: seq<Element>, respond: (nat, PostRequest) -> PostOutcome,
                      posts: seq<PostRequest>, outcomes: seq<PostOutcome>, tokens: Tokens, allDates: DatedShowtimes,
                      request: PostRequest, reply: Reply)
    requires Walking(choices, t0, first, respond, posts, outcomes, tokens, allDates, false) && |posts| + 1 < |choices|
    requires request == RequestFor(tokens, choices[|posts| + 1])
    requires respond(|posts|, request) == Answered(reply) && reply.status == 200
    ensures Walking(choices, t0, first, respond, posts + [request], outcomes + [Answered(reply)], Refreshed(tokens, reply),
                    allDates.Put(choices[|posts| + 1].text, ParsedPage(reply.elements)), false)
  {
    WalkStep(choices, t0, first, respond, posts, outcomes, tokens, allDates, request);
  }

  /** A post answered with another status: nothing is stored and the loop stops. */
  lemma WalkRefused(choices: seq<DateChoice>, t0: Tokens, first: seq<Element>, respond: (nat, PostRequest) -> PostOutcome,
                    posts: seq<PostRequest>, outcomes: seq<PostOutcome>, tokens: Tokens, allDates: DatedShowtimes,
                    request: PostRequest, reply: Reply)
    requires Walking(choices, t0, first, respond, posts, outcomes, tokens, allDates, false) && |posts| + 1 < |choices|
    requires request == RequestFor(tokens, choices[|posts| + 1])
    requires respond(|posts|, request) == Answered(reply) && reply.status != 200
    ensures Walking(choices, t0, first, respond, posts + [request], outcomes + [Answered(reply)], tokens, allDates, true)
  {
    WalkStep(choices, t0, first, respond, posts, outcomes, tokens, allDates, request);
  }

  /** A post that raises: the posts so far still follow the rules, and the walk ends early. */
  lemma WalkAborted(choices: seq<DateChoice>, t0: Tokens, first: seq<Element>, respond: (nat, PostRequest) -> PostOutcome,
                    posts: seq<PostRequest>, outcomes: seq<PostOutcome>, tokens: Tokens, allDates: DatedShowtimes,
                    request: PostRequest)
    requires Walking(choices, t0, first, respond, posts, outcomes, tokens, allDates, false) && |posts| + 1 < |choices|
    requires request == RequestFor(tokens, choices[|posts| + 1])
    requires respond(|posts|, request).PostFailed?
    ensures var outcomes' := Outcomes(respond, posts + [request]);
      && PostsFollow(choices, t0, outcomes', posts + [request])
      && StoppedOnlyOnFailure(choices, outcomes')
      && outcomes'[|posts|].PostFailed?
  {
    WalkStep(choices, t0, first, respond, posts, outcomes, tokens, allDates, request);
  }

  /** What every kind of outcome shares: the post is recorded and follows the rules. */
  lemma WalkStep(choices: seq<DateChoice>, t0: Tokens, first: seq<Element>, respond: (nat, PostRequest) -> PostOutcome,
                 posts: seq<PostRequest>, outcomes: seq<PostOutcome>, tokens: Tokens, allDates: DatedShowtimes,
                 request: PostRequest)
    requires Walking(choices, t0, first, respond, posts, outcomes, tokens, allDates, false) && |posts| + 1 < |choices|
    requires request == RequestFor(tokens, choices[|posts| + 1])
    ensures var o := respond(|posts|, request);
      && Outcomes(respond, posts + [request]) == outcomes + [o]
      && PostsFollow(choices, t0, outcomes + [o], posts + [request])
      && TokensAfter(t0, outcomes + [o]) == (if Succeeded(o) then Refreshed(tokens, o.reply) else tokens)
      && CollectedDates(choices, first, outcomes + [o]) ==
           (if Succeeded(o) then allDates.Put(choices[|posts| + 1].text, ParsedPage(o.reply.elements)) else allDates)
  {
    var o := respond(|posts|, request);
    PostsFollowStep(choices, t0, outcomes, posts, o);
    OutcomesSnoc(respond, posts, request);
    CollectedDatesStep(choices, first, outcomes, o);
    TokensAfterStep(t0, outcomes, o);
  }

  /** The loop has ended: it stopped on a refused post or ran out of dates. */
  lemma WalkFinished(choices: seq<DateChoice>, t0: Tokens, first: seq<Element>, respond: (nat, PostRequest) -> PostOutcome,
                     posts: seq<PostRequest>, outcomes: seq<PostOutcome>, tokens: Tokens, allDates: DatedShowtimes, stopped: bool)
    requires Walking(choices, t0, first, respond, posts, outcomes, tokens, allDates, stopped)
    requires stopped || |posts| == |choices| - 1
    ensures StoppedOnlyOnFailure(choices, outcomes)
    ensures !(posts != [] && outcomes[|posts| - 1].PostFailed?)
  {
  }

  /**
   * The postback loop of scrape_aggregated_showtimes (lines 171-198): one POST
   * per further date, stopping at the first reply that is not 200; `failed`
   * when a POST raised.
   */
  method PostDates(choices: seq<DateChoice>, viewState0: string, eventValidation0: string, ghost first: seq<Element>,
                   dates0: DatedShowtimes, respond: (nat, PostRequest) -> PostOutcome)
    returns (allDates: DatedShowtimes, posts: seq<PostRequest>, failed: bool)
    requires choices != [] && dates0 == CollectedDates(choices, first, [])
    ensures var t0 := Tokens(viewState0, eventValidation0);
      var outcomes := Outcomes(respond, posts);
      && PostsFollow(choices, t0, outcomes, posts)
      && StoppedOnlyOnFailure(choices, outcomes)
      && (failed <==> posts != [] && outcomes[|posts| - 1].PostFailed?)
      && (!failed ==> allDates == CollectedDates(choices, first, outcomes))
  {
    ghost var t0 := Tokens(viewState0, eventValidation0);
    var viewState, eventValidation := viewState0, eventValidation0;
    allDates, posts, failed := dates0, [], false;
    ghost var outcomes: seq<PostOutcome> := [];
    var k := 0;
    var stopped := false;
    while k < |choices| - 1 && !stopped
      invariant 0 <= k <= |choices| - 1 && |posts| == k
      invariant Walking(choices, t0, first, respond, posts, outcomes, Tokens(viewState, eventValidation), allDates, stopped)
      decreases |choices| - k, !stopped
    {
      var choice := choices[k + 1];
      var request := PostRequest(DateControl, "", "", viewState, eventValidation, choice.value);
      var outcome := respond(k, request);
      match outcome {
        case PostFailed =>
          WalkAborted(choices, t0, first, respond, posts, outcomes, Tokens(viewState, eventValidation), allDates, request);
          posts := posts + [request];
          failed := true;
          return;
        case Answered(reply) =>
          if reply.status != 200 {
            WalkRefused(choices, t0, first, respond, posts, outcomes, Tokens(viewState, eventValidation), allDates, request, reply);
            stopped := true;
          } else {
            WalkSucceeded(choices, t0, first, respond, posts, outcomes, Tokens(viewState, eventValidation), allDates, request, reply);
            var dateShowtimes := ParseShowtimes(reply.elements);
            allDates := allDates.Put(choice.text, dateShowtimes);
            if reply.viewState.Some? {
              viewState := reply.viewState.value;
            }
            if reply.eventValidation.Some? {
              eventValidation := reply.eventValidation.value;
            }
          }
      }
      posts := posts + [request];
      outcomes := outcomes + [outcome];
      k := k + 1;
    }
    WalkFinished(choices, t0, first, respond, posts, outcomes, Tokens(viewState, eventValidation), allDates, stopped);
  }

  /** scrape_aggregated_showtimes (lines 141-214). */
  method ScrapeAggregatedShowtimes(initial: GetOutcome, respond: (nat, PostRequest) -> PostOutcome)
    returns (result: WalkResult, posts: seq<PostRequest>)
    ensures !Walkable(initial) ==> result == NoShowtimes && posts == []
    ensures Walkable(initial) ==>
      var choices := DateChoices(initial.page.dateDropdown.value);
      var outcomes := Outcomes(respond, posts);
      && PostsFollow(choices, InitialTokens(initial.page), outcomes, posts)
      && StoppedOnlyOnFailure(choices, outcomes)
      && (result == NoShowtimes <==> posts != [] && outcomes[|posts| - 1].PostFailed?)
      && (result.Aggregated? ==>
            var collected := CollectedDates(choices, initial.page.elements, outcomes);
            result.cinemas == Regroup(Slots(collected, |collected.keys|)))
  {
    posts := [];
    if initial.GetFailed? {
      return NoShowtimes, posts;
    }
    var page := initial.page;
    if page.dateDropdown.None? {
      return NoShowtimes, posts;
    }
    var choices := DateChoices(page.dateDropdown.value);
    var viewState := page.viewState.GetOr("");
    var eventValidation := page.eventValidation.GetOr("");
    if choices == [] {
      return NoShowtimes, posts;
    }
    var firstShowtimes := ParseShowtimes(page.elements);
    var allDates: DatedShowtimes := Empty<PageShowtimes>().Put(choices[0].text, firstShowtimes);
    var failed;
    allDates, posts, failed := PostDates(choices, viewState, eventValidation, page.elements, allDates, respond);
    if failed {
      return NoShowtimes, posts;
    }
    var cinemas := Regrouped(allDates);
    result := Aggregated(cinemas);
  }
}

/** What the session walk promises about the dates it visits, the tokens it sends and the dates it keeps. */
module SessionWalkerProperties {
  import opened Wrappers
  import opened OrderedDict
  import opened Showtimes
  import opened Restructure
  import opened SessionWalker

  /** Valued options keep document order. */
  lemma {:induction false} ValuedOptionsAppend(a: seq<DateOption>, b: seq<DateOption>)
    ensures ValuedOptions(a + b) == ValuedOptions(a) + ValuedOptions(b)
    decreases |b|
  {
    if b == [] {
      assert a + b == a;
    } else {
      var ab := a + b;
      assert ab[..|ab| - 1] == a + b[..|b| - 1];
      ValuedOptionsAppend(a, b[..|b| - 1]);
    }
  }

  /** An option is kept exactly when its value attribute is present and non-empty. */
  lemma {:induction false} ValuedOptionsMembers(opts: seq<DateOption>, c: DateChoice)
    ensures c in ValuedOptions(opts) <==> c.value != "" && DateOption(Some(c.value), c.text) in opts
  {
    if opts != [] {
      var p := opts[..|opts| - 1];
      ValuedOptionsMembers(p, c);
      assert opts == p + [opts[|opts| - 1]];
    }
  }

  /** At most MAX_DAYS_TO_SCRAPE dates, the first valued options of the dropdown. */
  lemma DateChoicesBound(opts: seq<DateOption>)
    ensures |DateChoices(opts)| <= MaxDaysToScrape
    ensures DateChoices(opts) <= ValuedOptions(opts)
    ensures |DateChoices(opts)| == if |ValuedOptions(opts)| < MaxDaysToScrape then |ValuedOptions(opts)| else MaxDaysToScrape
  {
  }

  /** At most one POST per remaining date, so at most four. */
  lemma AtMostFourPosts(opts: seq<DateOption>, t0: Tokens, outcomes: seq<PostOutcome>, posts: seq<PostRequest>)
    requires PostsFollow(DateChoices(opts), t0, outcomes, posts)
    ensures |posts| <= MaxDaysToScrape - 1
  {
    DateChoicesBound(opts);
  }

  /** The first post carries the tokens of the first page, or "" for a token the page lacks. */
  lemma FirstPostTokens(page: FirstPage, choices: seq<DateChoice>, outcomes: seq<PostOutcome>, posts: seq<PostRequest>)
    requires PostsFollow(choices, InitialTokens(page), outcomes, posts) && posts != []
    ensures posts[0].viewState == (if page.viewState.Some? then page.viewState.value else "")
    ensures posts[0].eventValidation == (if page.eventValidation.Some? then page.eventValidation.value else "")
    ensures posts[0].eventTarget == DateControl && posts[0].dateValue == choices[1].value
  {
    assert outcomes[..0] == [];
  }

  datatype TokenField = ViewStateField | EventValidationField

  function TokenOf(t: Tokens, f: TokenField): string {
    match f
    case ViewStateField => t.viewState
    case EventValidationField => t.eventValidation
  }

  function CarriedBy(r: Reply, f: TokenField): Option<string> {
    match f
    case ViewStateField => r.viewState
    case EventValidationField => r.eventValidation
  }

  /** Outcome `j` is a successful reply whose page carries token `f`. */
  predicate RefreshesAt(outcomes: seq<PostOutcome>, j: int, f: TokenField)
    requires 0 <= j < |outcomes|
  {
    Succeeded(outcomes[j]) && CarriedBy(outcomes[j].reply, f).Some?
  }

  /** A token no successful reply has carried is still the first page's. */
  lemma {:induction false} TokenKept(t0: Tokens, outcomes: seq<PostOutcome>, f: TokenField)
    requires forall j :: 0 <= j < |outcomes| ==> !RefreshesAt(outcomes, j, f)
    ensures TokenOf(TokensAfter(t0, outcomes), f) == TokenOf(t0, f)
  {
    if outcomes != [] {
      var p := outcomes[..|outcomes| - 1];
      assert !RefreshesAt(outcomes, |outcomes| - 1, f);
      forall j | 0 <= j < |p| ensures !RefreshesAt(p, j, f) {
        assert !RefreshesAt(outcomes, j, f);
      }
      TokenKept(t0, p, f);
    }
  }

  /** Otherwise it is the value carried by the latest successful reply that had one. */
  lemma {:induction false} TokenFromLatestReply(t0: Tokens, outcomes: seq<PostOutcome>, f: TokenField, j: int)
    requires 0 <= j < |outcomes| && RefreshesAt(outcomes, j, f)
    requires forall i :: j < i < |outcomes| ==> !RefreshesAt(outcomes, i, f)
    ensures TokenOf(TokensAfter(t0, outcomes), f) == CarriedBy(outcomes[j].reply, f).value
  {
    var n := |outcomes| - 1;
    var p := outcomes[..n];
    if j < n {
      assert !RefreshesAt(outcomes, n, f);
      assert RefreshesAt(p, j, f);
      forall i | j < i < |p| ensures !RefreshesAt(p, i, f) {
        assert !RefreshesAt(outcomes, i, f);
      }
      TokenFromLatestReply(t0, p, f, j);
    }
  }

  /** The labels of the dates visited: the first page's, then one per post. */
  function VisitedLabels(choices: seq<DateChoice>, n: nat): seq<string>
    requires n < |choices|
  {
    if n == 0 then [choices[0].text] else VisitedLabels(choices, n - 1) + [choices[n].text]
  }

  /** The page seen for `choices[i]`: the first page, or the reply to the i-th post. */
  function PageAt(first: seq<Element>, outcomes: seq<PostOutcome>, i: nat): seq<Element>
    requires i <= |outcomes|
  {
    if i == 0 then first
    else if outcomes[i - 1].Answered? then outcomes[i - 1].reply.elements
    else []
  }

  /** A failed post leaves the collected dates as they were. */
  lemma FailureKeepsCollected(choices: seq<DateChoice>, first: seq<Element>, outcomes: seq<PostOutcome>, o: PostOutcome)
    requires |outcomes| + 1 < |choices| && !Succeeded(o)
    ensures CollectedDates(choices, first, outcomes + [o]) == CollectedDates(choices, first, outcomes)
  {
    CollectedDatesStep(choices, first, outcomes, o);
  }

  /** With every post successful, one date per distinct label, in the order the labels were first visited. */
  lemma {:induction false} CollectedLabels(choices: seq<DateChoice>, first: seq<Element>, outcomes: seq<PostOutcome>)
    requires |outcomes| < |choices|
    requires forall j :: 0 <= j < |outcomes| ==> Succeeded(outcomes[j])
    ensures CollectedDates(choices, first, outcomes).keys == FirstAppearances(VisitedLabels(choices, |outcomes|))
  {
    if outcomes != [] {
      var n := |outcomes|;
      var p := outcomes[..n - 1];
      assert Succeeded(outcomes[n - 1]);
      CollectedLabels(choices, first, p);
      FirstAppearancesStep(VisitedLabels(choices, n - 1), choices[n].text);
    }
  }

  /** A label visited more than once keeps the page of its latest visit. */
  lemma {:induction false} LatestVisitWins(choices: seq<DateChoice>, first: seq<Element>, outcomes: seq<PostOutcome>, i: nat)
    requires |outcomes| < |choices| && i <= |outcomes|
    requires forall j :: 0 <= j < |outcomes| ==> Succeeded(outcomes[j])
    requires forall i' :: i < i' <= |outcomes| ==> choices[i'].text != choices[i].text
    ensures choices[i].text in CollectedDates(choices, first, outcomes).vals
    ensures CollectedDates(choices, first, outcomes).vals[choices[i].text] == ParsedPage(PageAt(first, outcomes, i))
  {
    var n := |outcomes|;
    if n > 0 {
      var p := outcomes[..n - 1];
      assert Succeeded(outcomes[n - 1]);
      var before := CollectedDates(choices, first, p);
      assert CollectedDates(choices, first, outcomes) == before.Put(choices[n].text, ParsedPage(outcomes[n - 1].reply.elements));
      if i < n {
        assert PageAt(first, p, i) == PageAt(first, outcomes, i);
        LatestVisitWins(choices, first, p, i);
      }
    }
  }
}

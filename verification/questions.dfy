/**
  The question list page (client/src/pages/Questions/Questions.jsx): the
  search filter, the newest-first display order, the text preview, the
  date and time shown from `creation_time`, the category picker and the
  avatar click that toggles the user card.
 */
module Questions {
  import opened Options
  import opened Seqs
  import opened Text

  datatype Question = Question(id: string, chatTitle: string, chatText: string,
                               creationTime: string, creatorUser: string)

  datatype Category = Category(categoryName: string, id: string)

  /** The category the page starts on. */
  const AllCategory: Category := Category("All", "64905349466874bd960c2aca")

  /** How many characters of a question's text the list shows. */
  const PreviewLength: nat := 100

  /** The page state the handlers change. `category` is `None` after picking an unknown id. */
  datatype View = View(category: Option<Category>, showUserDetails: bool, userPhotoId: string, searchQuery: string)

  const InitialView: View := View(Some(AllCategory), false, "", "")

  /** The search test: the lower-cased title starts with the lower-cased query. */
  function MatchesQuery(query: string): Question -> bool {
    (q: Question) => Lower(query) <= Lower(q.chatTitle)
  }

  /**
    `filteredQuestions`: exactly the questions whose title starts with the
    query, ignoring case, each as often as in the list and in list order.
   */
  function FilteredQuestions(questions: seq<Question>, query: string): (r: seq<Question>)
    ensures SubseqOf(r, questions)
    ensures forall q :: q in r <==> q in questions && Lower(query) <= Lower(q.chatTitle)
    ensures forall q :: multiset(r)[q] == if Lower(query) <= Lower(q.chatTitle) then multiset(questions)[q] else 0
  {
    Filter(questions, MatchesQuery(query))
  }

  /** An empty search keeps every question, in order. */
  lemma EmptyQueryKeepsAll(questions: seq<Question>)
    ensures FilteredQuestions(questions, "") == questions
  {
    FilterKeepsAll(questions, MatchesQuery(""));
  }

  /** The case of the query does not matter: searching its lower-cased form gives the same list. */
  lemma QueryIgnoresCase(questions: seq<Question>, query: string)
    ensures FilteredQuestions(questions, Lower(query)) == FilteredQuestions(questions, query)
  {
    LowerIdempotent(query);
    FilterAgree(questions, MatchesQuery(Lower(query)), MatchesQuery(query));
  }

  /**
    The display order: `slice()` copies the filtered list into a fresh array,
    `reverse()` turns that copy around in place, and the filtered list itself
    is left as it was.
   */
  method DisplayOrder(filtered: seq<Question>) returns (shown: seq<Question>)
    ensures shown == Reverse(filtered)
  {
    var n := |filtered|;
    var copy := new Question[n](i requires 0 <= i < n => filtered[i]);
    var i := 0;
    while i < n / 2
      invariant 0 <= i <= n / 2
      invariant forall k :: 0 <= k < i ==> copy[k] == filtered[n - 1 - k] && copy[n - 1 - k] == filtered[k]
      invariant forall k :: i <= k < n - i ==> copy[k] == filtered[k]
    {
      copy[i], copy[n - 1 - i] := copy[n - 1 - i], copy[i];
      i := i + 1;
    }
    shown := copy[..];
  }

  /** `chat_text.slice(0, 100)`: the first hundred characters, or the whole text when shorter. */
  function Preview(text: string): (r: string)
    ensures r <= text
    ensures |r| == if |text| < PreviewLength then |text| else PreviewLength
    ensures |text| <= PreviewLength ==> r == text
  {
    Slice(text, PreviewLength)
  }

  /** `creation_time.split("T")[0]`: the text before the first `T`, or all of it when there is none. */
  function DatePart(creationTime: string): (date: string)
    ensures date <= creationTime
    ensures 'T' !in date
    ensures |date| == |creationTime| || creationTime[|date|] == 'T'
  {
    SplitFirst(creationTime, 'T');
    Split(creationTime, 'T')[0]
  }

  /**
    `creation_time.split("T")[1].split(".")[0]`: the text after the first `T`,
    up to the next `.` or `T`. Without any `T` the second part is `undefined`
    and the page fails to render; that case is `None`.
   */
  function TimePart(creationTime: string): (time: Option<string>)
    ensures time.None? <==> 'T' !in creationTime
    ensures time.Some? ==>
              var start := |DatePart(creationTime)| + 1;
              && start <= |creationTime|
              && time.value <= creationTime[start..]
              && 'T' !in time.value && '.' !in time.value
              && (start + |time.value| == |creationTime| || creationTime[start + |time.value|] in {'T', '.'})
  {
    SplitFirst(creationTime, 'T');
    var parts := Split(creationTime, 'T');
    if |parts| < 2 then None
    else
      var after := creationTime[|parts[0]| + 1..];
      SplitFirst(after, 'T');
      SplitFirst(parts[1], '.');
      var time := Split(parts[1], '.')[0];
      assert parts[1] <= after;
      assert time <= parts[1];
      assert |time| == |parts[1]| || parts[1][|time|] == '.';
      assert |parts[1]| == |after| || after[|parts[1]|] == 'T';
      Some(time)
  }

  /** The `find` test of the category picker. */
  function HasId(id: string): Category -> bool {
    (c: Category) => c.id == id
  }

  /**
    `handleCategoryChange`: the first category with the chosen id becomes the
    current one; an id no category has leaves `undefined` (`None`).
   */
  function ChangeCategory(view: View, categories: seq<Category>, id: string): (r: View)
    ensures r.category.None? <==> forall i :: 0 <= i < |categories| ==> categories[i].id != id
    ensures r.category.Some? ==>
              exists i :: 0 <= i < |categories| && categories[i] == r.category.value && categories[i].id == id &&
                          forall j :: 0 <= j < i ==> categories[j].id != id
    ensures r.showUserDetails == view.showUserDetails && r.userPhotoId == view.userPhotoId &&
            r.searchQuery == view.searchQuery
  {
    view.(category := Find(categories, HasId(id)))
  }

  /** `handlePhotoClick`: remember whose avatar was clicked and flip the user card. */
  function PhotoClick(view: View, userId: string): (r: View)
    ensures r.userPhotoId == userId
    ensures r.showUserDetails != view.showUserDetails
    ensures r.category == view.category && r.searchQuery == view.searchQuery
  {
    view.(userPhotoId := userId, showUserDetails := !view.showUserDetails)
  }

  /** Two avatar clicks bring the user card back to where it was. */
  lemma PhotoClickTwice(view: View, first: string, second: string)
    ensures PhotoClick(PhotoClick(view, first), second) == view.(userPhotoId := second)
  {
  }

  /** The search box's `onChange`: the query takes the typed value. */
  function OnSearchChange(view: View, query: string): (r: View)
    ensures r.searchQuery == query
    ensures r.category == view.category && r.showUserDetails == view.showUserDetails &&
            r.userPhotoId == view.userPhotoId
  {
    view.(searchQuery := query)
  }
}

/**
 * The dashboard page's state and its handlers. Network calls are not made here: each
 * handler receives what the call settled with as a parameter, and the effects that
 * follow an `await` are applied in program order.
 */
module IndexPage {
  import opened Wrappers
  import opened Api
  import opened UserView

  class Page {
    var users: seq<User>
    var loading: bool
    var search: string
    var sortBy: string
    var topupUser: Option<User>
    var dialogOpen: bool
    /** The browser's string comparison for the "name" sort key; nothing is assumed of it. */
    const localeCompare: (string, string) -> int

    /** The initial state of the page's hooks, before the mount effect loads the users. */
    constructor (localeCompare: (string, string) -> int)
      ensures users == [] && loading && search == "" && sortBy == "tokens"
      ensures topupUser == None && !dialogOpen
      ensures this.localeCompare == localeCompare
    {
      users := [];
      loading := true;
      search := "";
      sortBy := "tokens";
      topupUser := None;
      dialogOpen := false;
      this.localeCompare := localeCompare;
    }

    /** The `filtered` memo that the table renders. */
    function Filtered(): (r: seq<User>)
      reads this
      ensures forall u :: u in r ==> u in users && Matches(u, search)
      ensures search == "" ==> multiset(r) == multiset(users)
    {
      DisplayedEmptySearch(users, sortBy, localeCompare);
      Displayed(users, search, sortBy, localeCompare)
    }

    /** The stats cards' `totalTokens`, taken over all users whatever the search. */
    function Total(): (t: int)
      reads this
      ensures search == "" ==> t == TotalTokens(Filtered())
    {
      TotalTokensOfEmptySearchView(users, sortBy, localeCompare);
      TotalTokens(users)
    }

    /** The stats cards' `avgTokens`: the total over the number of users, rounded half up. */
    function Average(): (r: int)
      reads this
      ensures |users| == 0 ==> r == 0
      ensures |users| > 0 ==> 2 * |users| * r - |users| <= 2 * Total() < 2 * |users| * r + |users|
    {
      AvgTokens(users)
    }

    /**
     * `loadUsers`: a successful fetch replaces the list with `data.users || []`, a failed
     * one leaves it as it was; either way the spinner is off afterwards.
     */
    method LoadUsers(result: FetchResult)
      modifies this`users, this`loading
      ensures !loading
      ensures result.Fetched? ==> users == result.users.GetOr([])
      ensures result.FetchFailed? ==> users == old(users)
    {
      loading := true;
      match result {
        case Fetched(list) => users := list.GetOr([]);
        case FetchFailed(_) =>
      }
      loading := false;
    }

    /** The search box's `onChange`: the aggregates do not depend on the query. */
    method SetSearch(query: string)
      modifies this`search
      ensures search == query
      ensures Total() == old(Total()) && Average() == old(Average())
    {
      search := query;
    }

    /** The sort selector's `onValueChange`: the table keeps the same users, reordered. */
    method SetSortBy(key: string)
      modifies this`sortBy
      ensures sortBy == key
      ensures multiset(Filtered()) == old(multiset(Filtered()))
      ensures Total() == old(Total()) && Average() == old(Average())
    {
      DisplayedIsPermutationOfMatches(users, search, sortBy, localeCompare);
      sortBy := key;
      DisplayedIsPermutationOfMatches(users, search, sortBy, localeCompare);
    }

    /** A row's top-up button: remember the row's user and open the dialog. */
    method OpenTopup(u: User)
      modifies this`topupUser, this`dialogOpen
      ensures topupUser == Some(u) && dialogOpen
    {
      topupUser := Some(u);
      dialogOpen := true;
    }

    /** `setDialogOpen`, which the dialog receives as `onOpenChange`. */
    method SetDialogOpen(open: bool)
      modifies this`dialogOpen
      ensures dialogOpen == open
    {
      dialogOpen := open;
    }

    /**
     * `handleTopup`: reloads the list only when the reply reports success, and reports every
     * failure (a `success: false` reply or a thrown error) without rethrowing, so the promise
     * it returns always resolves. `sent` is the request `addTokens` receives, `reloaded` tells
     * whether `loadUsers` ran.
     */
    method HandleTopup(call: TopupCall, reply: TopupReply, reload: FetchResult)
      returns (sent: TopupCall, reloaded: bool, settled: Settlement)
      modifies this`users, this`loading
      ensures sent == call
      ensures settled == Resolved
      ensures reloaded <==> reply.Replied? && reply.success
      ensures reloaded ==> !loading
      ensures reloaded && reload.Fetched? ==> users == reload.users.GetOr([])
      ensures !(reloaded && reload.Fetched?) ==> users == old(users)
      ensures !reloaded ==> loading == old(loading)
    {
      sent := call;
      reloaded := false;
      match reply {
        case Replied(success, _) =>
          if success {
            LoadUsers(reload);
            reloaded := true;
          }
        case TopupFailed(_) =>
      }
      settled := Resolved;
    }
  }
}

/**
 * Choosing an account and classifying the outcome of the calls made through the social
 * media client. The client itself is not modelled: each call's outcome is an input.
 */
module Actions {
  import opened Common

  /** One entry of the credential store. */
  datatype Account = Account(
    clientId: string,
    clientSecret: string,
    username: string,
    password: string,
    userAgent: Option<string>)

  /** How a `reply` call ended. */
  datatype ReplyOutcome = Replied | Forbidden | ServerError | OtherError

  /** An entry of a submission's comment listing; `author` is absent for deleted
      comments and for "load more" placeholders. */
  datatype Comment = Comment(author: Option<string>)

  /** How listing a submission's comments ended. */
  datatype Listing = ListingFailed | Listed(comments: seq<Comment>)

  /** How asking the client for the authenticated user ended. */
  datatype Identity = IdentityFailed | Me(name: string)

  /** None for an empty list, otherwise some account of the list; which one is left open,
      as `random.choice` leaves it to chance. */
  method SelectAccount(accounts: seq<Account>) returns (r: Option<Account>)
    ensures r.None? <==> |accounts| == 0
    ensures r.Some? ==> r.value in accounts
  {
    if |accounts| == 0 {
      return None;
    }
    var i :| 0 <= i < |accounts|;
    r := Some(accounts[i]);
  }

  /** Posting reports success for a reply that went through and failure for every
      classified or unclassified error. */
  function PostComment(outcome: ReplyOutcome): (posted: bool)
    ensures posted <==> outcome == Replied
  {
    match outcome
    case Replied => true
    case Forbidden => false
    case ServerError => false
    case OtherError => false
  }

  /** A comment that stops the scan: it has an author, and either identifying the current
      user raises or the author is that user. */
  predicate StopsScan(c: Comment, me: Identity) {
    c.author.Some? && (me.IdentityFailed? || c.author.value == me.name)
  }

  /** The scan over the listed comments, in order; the current user is asked for only
      when a comment has an author. */
  function ScanComments(comments: seq<Comment>, me: Identity): (found: bool)
    ensures found <==> exists i :: 0 <= i < |comments| && StopsScan(comments[i], me)
  {
    if |comments| == 0 then false
    else if comments[0].author.Some? then
      if me.IdentityFailed? then true
      else if comments[0].author.value == me.name then true
      else ScanComments(comments[1..], me)
    else ScanComments(comments[1..], me)
  }

  /** True when the user has a comment on the submission, and also whenever a call
      raises; false only when a complete scan finds no comment by the user. */
  function HasAlreadyCommented(listing: Listing, me: Identity): (r: bool)
    ensures listing.ListingFailed? ==> r
    ensures !r <==> (listing.Listed? &&
                     forall i :: 0 <= i < |listing.comments| ==> !StopsScan(listing.comments[i], me))
    ensures r && listing.Listed? && me.Me? ==>
              exists i :: 0 <= i < |listing.comments| && listing.comments[i].author == Some(me.name)
  {
    match listing
    case ListingFailed => true
    case Listed(comments) => ScanComments(comments, me)
  }

  /** Failing to identify the user only matters when some comment has an author: on a
      submission whose comments are all deleted the answer is still false. */
  lemma IdentityFailureNeedsAnAuthor(comments: seq<Comment>)
    requires forall i :: 0 <= i < |comments| ==> comments[i].author.None?
    ensures !HasAlreadyCommented(Listed(comments), IdentityFailed)
  {
  }

  /** With the user identified, a comment by the user is found wherever it sits. */
  lemma FindsOwnComment(comments: seq<Comment>, name: string, k: nat)
    requires k < |comments| && comments[k].author == Some(name)
    ensures HasAlreadyCommented(Listed(comments), Me(name))
  {
  }
}

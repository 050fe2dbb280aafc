/**
 * The wishlist views: an AJAX GET that asks whether a product is on the
 * user's wishlist, an AJAX POST that toggles it, and an AJAX POST that
 * removes it. The wishlist table is a set of (user, product) pairs held by
 * the database.
 */
module WishlistViews {
  import opened Wrappers
  import opened Models

  type Pair = (UserId, ProductId)

  /** The request method. */
  datatype Verb = Get | Post | OtherVerb

  /** What the views look at in a request: its method and whether it carries the XMLHttpRequest header. */
  datatype Request = Request(verb: Verb, ajax: bool)

  /** The `action` a toggle reports. */
  datatype Action = Added | Removed

  /** Why a view answered with an error status. */
  datatype Reason = ProductNotFound | NotInWishlist | InvalidRequest

  datatype Reply =
    | LoginRequired
    | Membership(inWishlist: bool)
    | Toggled(action: Action, productName: string)
    | RemovedFromWishlist(productName: string)
    | Failure(status: nat, reason: Reason)

  /** The products on `user`'s wishlist. */
  function ProductsOf(wishlist: set<Pair>, user: UserId): set<ProductId>
  {
    set pair | pair in wishlist && pair.0 == user :: pair.1
  }

  /** The POST toggle on the table: the pair leaves if it was there and joins if it was not. */
  function Toggle(wishlist: set<Pair>, user: UserId, product: ProductId): (r: set<Pair>)
    ensures (user, product) in r <==> (user, product) !in wishlist
    ensures forall pair :: pair != (user, product) ==> (pair in r <==> pair in wishlist)
  {
    if (user, product) in wishlist then wishlist - {(user, product)} else wishlist + {(user, product)}
  }

  /** The action the toggle reports for the table it starts from. */
  function ToggleAction(wishlist: set<Pair>, user: UserId, product: ProductId): (a: Action)
    ensures a == Removed <==> (user, product) in wishlist
  {
    if (user, product) in wishlist then Removed else Added
  }

  /** Toggling the same pair twice gives back the table. */
  lemma ToggleTwice(wishlist: set<Pair>, user: UserId, product: ProductId)
    ensures Toggle(Toggle(wishlist, user, product), user, product) == wishlist
  {
  }

  /** The toggle reports `Removed` on the first call exactly when it reports `Added` on the second. */
  lemma ToggleActionsAlternate(wishlist: set<Pair>, user: UserId, product: ProductId)
    ensures ToggleAction(wishlist, user, product) != ToggleAction(Toggle(wishlist, user, product), user, product)
  {
  }

  /** The toggle changes one product of the requesting user's wishlist and no other user's wishlist. */
  lemma ToggleOnlyTouchesOwnWishlist(wishlist: set<Pair>, user: UserId, product: ProductId)
    ensures forall other :: other != user ==> ProductsOf(Toggle(wishlist, user, product), other) == ProductsOf(wishlist, other)
    ensures product in ProductsOf(Toggle(wishlist, user, product), user) <==> product !in ProductsOf(wishlist, user)
    ensures forall p :: p != product ==>
              (p in ProductsOf(Toggle(wishlist, user, product), user) <==> p in ProductsOf(wishlist, user))
  {
  }

  /** The table grows by one on `Added` and shrinks by one on `Removed`. */
  lemma ToggleSize(wishlist: set<Pair>, user: UserId, product: ProductId)
    ensures ToggleAction(wishlist, user, product) == Added ==> |Toggle(wishlist, user, product)| == |wishlist| + 1
    ensures ToggleAction(wishlist, user, product) == Removed ==> |Toggle(wishlist, user, product)| == |wishlist| - 1
  {
  }

  /**
   * add_to_wishlist. An AJAX GET answers whether the pair is on the wishlist
   * (the product need only exist); an AJAX POST toggles the pair for an
   * existing, available product; a missing product is a 400 on both paths,
   * and any other request is a 400 "Invalid request". `user` is None when
   * nobody is logged in.
   */
  method AddToWishlist(db: Database, user: Option<UserId>, request: Request, product: ProductId)
    returns (reply: Reply)
    modifies db
    ensures db.products == old(db.products) && db.orders == old(db.orders) && db.nextOrderId == old(db.nextOrderId)
    ensures user.None? ==> reply == LoginRequired && db.wishlist == old(db.wishlist)
    ensures user.Some? && request == Request(Get, true) ==>
              && db.wishlist == old(db.wishlist)
              && reply == if product in db.products then Membership((user.value, product) in db.wishlist)
                          else Failure(400, ProductNotFound)
    ensures user.Some? && request == Request(Post, true) ==>
              if product in db.products && db.products[product].available then
                && db.wishlist == Toggle(old(db.wishlist), user.value, product)
                && reply == Toggled(ToggleAction(old(db.wishlist), user.value, product), db.products[product].name)
              else
                db.wishlist == old(db.wishlist) && reply == Failure(400, ProductNotFound)
    ensures user.Some? && request != Request(Get, true) && request != Request(Post, true) ==>
              db.wishlist == old(db.wishlist) && reply == Failure(400, InvalidRequest)
  {
    if user.None? {
      return LoginRequired;
    }
    var u := user.value;
    if request == Request(Get, true) {
      if product !in db.products {
        return Failure(400, ProductNotFound);
      }
      return Membership((u, product) in db.wishlist);
    } else if request == Request(Post, true) {
      if product !in db.products || !db.products[product].available {
        return Failure(400, ProductNotFound);
      }
      var name := db.products[product].name;
      if (u, product) in db.wishlist {
        db.wishlist := db.wishlist - {(u, product)};
        return Toggled(Removed, name);
      }
      db.wishlist := db.wishlist + {(u, product)};
      return Toggled(Added, name);
    }
    return Failure(400, InvalidRequest);
  }

  /**
   * remove_from_wishlist. An AJAX POST deletes the pair; a missing product
   * is a 400, a pair that is not there a 404, and any other request a 400
   * "Invalid request".
   */
  method RemoveFromWishlist(db: Database, user: Option<UserId>, request: Request, product: ProductId)
    returns (reply: Reply)
    modifies db
    ensures db.products == old(db.products) && db.orders == old(db.orders) && db.nextOrderId == old(db.nextOrderId)
    ensures user.None? ==> reply == LoginRequired && db.wishlist == old(db.wishlist)
    ensures user.Some? && request == Request(Post, true) ==>
              if product !in db.products then
                db.wishlist == old(db.wishlist) && reply == Failure(400, ProductNotFound)
              else if (user.value, product) !in old(db.wishlist) then
                db.wishlist == old(db.wishlist) && reply == Failure(404, NotInWishlist)
              else
                db.wishlist == old(db.wishlist) - {(user.value, product)}
                && reply == RemovedFromWishlist(db.products[product].name)
    ensures user.Some? && request != Request(Post, true) ==>
              db.wishlist == old(db.wishlist) && reply == Failure(400, InvalidRequest)
  {
    if user.None? {
      return LoginRequired;
    }
    var u := user.value;
    if request != Request(Post, true) {
      return Failure(400, InvalidRequest);
    }
    if product !in db.products {
      return Failure(400, ProductNotFound);
    }
    if (u, product) !in db.wishlist {
      return Failure(404, NotInWishlist);
    }
    db.wishlist := db.wishlist - {(u, product)};
    return RemovedFromWishlist(db.products[product].name);
  }
}

/**
 * The product detail screen's state machine. Created with the id of an
 * existing product it shows `Loading` until the lookup of that id emits, and
 * `Success(product)` on every emission; created without one it shows
 * `Success(None)`, the empty form of a new product. Saving validates the
 * three text fields, then stores the product through the repository and
 * shows `Finished`; deleting removes the product shown.
 *
 * The coroutines the view model launches are run to completion within the
 * call that launches them; what the remote store does is the parameter
 * `reachable`, the price parser is the parameter `parsePrice` and the freshly
 * generated UUID is the parameter `freshId`.
 */
module DetailViewModel {
  import opened Wrappers
  import opened Products
  import opened StringConversions
  import opened Repository
  import opened Remote
  import opened Dao

  /** `ProductDetailState`. `Success(None)` is the form of a new product. */
  datatype DetailState =
    | Loading
    | Success(product: Option<Product>)
    | Error(message: string)
    | Finished

  const InvalidInputMessage: string := "Invalid input. Please check all fields."
  const ProductNotFoundMessage: string := "Could not delete product. Product not found."

  /** The fields of a product as the user typed them, once parsed and accepted. */
  datatype Input = Input(name: string, price: real, quantity: Int32)

  /**
   * The validation of `saveProduct`: the input is refused when the name is
   * blank, the price is missing or not above zero, or the quantity is missing
   * or below zero; otherwise it is the name and the two parsed numbers.
   */
  function ValidateInput(name: string, priceText: string, quantityText: string,
                         parsePrice: string -> Option<real>): (r: Option<Input>)
    ensures r.Some? ==> r.value.name == name && !IsBlank(name)
    ensures r.Some? ==> parsePrice(priceText) == Some(r.value.price) && r.value.price > 0.0
    ensures r.Some? ==> ToIntOrNull(quantityText) == Some(r.value.quantity) && r.value.quantity >= 0
    ensures r.None? ==> || IsBlank(name)
                        || parsePrice(priceText).None? || parsePrice(priceText).value <= 0.0
                        || ToIntOrNull(quantityText).None? || ToIntOrNull(quantityText).value < 0
  {
    var price := parsePrice(priceText);
    var quantity := ToIntOrNull(quantityText);
    if IsBlank(name) || price.None? || price.value <= 0.0 || quantity.None? || quantity.value < 0 then
      None
    else
      Some(Input(name, price.value, quantity.value))
  }

  /**
   * The four inputs the screen must refuse: a blank name, a negative price, a
   * negative quantity and a price that does not parse, with a price parser
   * that reads "10" as ten and "-1" as minus one and does not read "abc".
   */
  lemma ValidationRejects(parsePrice: string -> Option<real>)
    requires parsePrice("10") == Some(10.0) && parsePrice("-1") == Some(-1.0) && parsePrice("abc") == None
    ensures ValidateInput("", "10", "5", parsePrice) == None
    ensures ValidateInput("Widget", "-1", "5", parsePrice) == None
    ensures ValidateInput("Widget", "10", "-1", parsePrice) == None
    ensures ValidateInput("Widget", "abc", "5", parsePrice) == None
  {
    ToIntOrNullExamples();
  }

  /** The new product of the usual flow is accepted as typed. */
  lemma ValidationAccepts(parsePrice: string -> Option<real>)
    requires parsePrice("9.99") == Some(9.99)
    ensures ValidateInput("Widget", "9.99", "3", parsePrice) == Some(Input("Widget", 9.99, 3))
  {
    assert !IsBlank("Widget") by { assert !IsWhitespace("Widget"[0]); }
    assert ToIntOrNull("3") == Some(3);
  }

  class ProductDetailViewModel {
    /** The id the screen was opened with; `None` for a new product. */
    const productId: Option<string>
    const repository: ProductRepository
    /** `_uiState.value`. */
    var uiState: DetailState
    /** Every value `uiState` has been given, oldest first. */
    ghost var trace: seq<DetailState>

    ghost predicate Valid()
      reads this, repository, repository.dao
    {
      repository.Valid() && |trace| > 0 && trace[|trace| - 1] == uiState
    }

    /** The initial `Loading`, then `init`: an empty form when there is no id to load. */
    constructor (productId: Option<string>, repository: ProductRepository)
      requires repository.Valid()
      ensures Valid()
      ensures this.productId == productId && this.repository == repository
      ensures productId.None? ==> uiState == Success(None) && trace == [Loading, Success(None)]
      ensures productId.Some? ==> uiState == Loading && trace == [Loading]
    {
      this.productId := productId;
      this.repository := repository;
      if productId.None? {
        uiState := Success(None);
        trace := [Loading, Success(None)];
      } else {
        uiState := Loading;
        trace := [Loading];
      }
    }

    /** One emission of the lookup that `loadProduct(productId)` collects. */
    method OnProductEmitted()
      requires Valid() && productId.Some?
      modifies this
      ensures Valid()
      ensures uiState == Success(repository.GetProductById(productId.value))
      ensures trace == old(trace) + [uiState]
    {
      uiState := Success(repository.GetProductById(productId.value));
      trace := trace + [uiState];
    }

    /**
     * `saveProduct(name, priceStr, quantityStr)`. A refused input shows the
     * error and then the form again: empty for a new product, the product as
     * stored for an existing one; the repository is not called. An accepted
     * input is saved under the screen's id, or `freshId` for a new product;
     * the screen shows `Finished` once the repository call returns, and
     * nothing new if it throws.
     */
    method SaveProduct(name: string, priceText: string, quantityText: string,
                       parsePrice: string -> Option<real>, freshId: string, reachable: bool)
      returns (r: Outcome<RemoteError>)
      requires Valid()
      modifies this, repository, repository.dao, repository.remote
      ensures Valid()
      ensures ValidateInput(name, priceText, quantityText, parsePrice).None? ==>
        && r == Pass
        && repository.ops == old(repository.ops)
        && repository.dao.products == old(repository.dao.products)
        && repository.remote.documents == old(repository.remote.documents)
        && var shown := if productId.None? then None else repository.GetProductById(productId.value);
           trace == old(trace) + [Error(InvalidInputMessage), Success(shown)]
      ensures ValidateInput(name, priceText, quantityText, parsePrice).Some? ==>
        var input := ValidateInput(name, priceText, quantityText, parsePrice).value;
        var product := Product(productId.GetOr(freshId), input.name, input.price, input.quantity);
        && (r.Pass? <==> reachable)
        && repository.ops == old(repository.ops) + UpsertOps(product, r.Pass?)
        && (r.Pass? ==> repository.GetProductById(product.id) == Some(product))
        && (r.Pass? ==> repository.dao.products == TableUpsert(old(repository.dao.products), ToEntity(product)))
        && (r.Pass? ==> repository.remote.documents == old(repository.remote.documents)[product.id := product])
        && (r.Fail? ==> repository.dao.products == old(repository.dao.products))
        && (r.Fail? ==> repository.remote.documents == old(repository.remote.documents))
        && trace == old(trace) + (if r.Pass? then [Finished] else [])
    {
      var input := ValidateInput(name, priceText, quantityText, parsePrice);
      if input.None? {
        uiState := Error(InvalidInputMessage);
        trace := trace + [uiState];
        if productId.Some? {
          OnProductEmitted();
        } else {
          uiState := Success(None);
          trace := trace + [uiState];
        }
        return Pass;
      }
      var id := if productId.Some? then productId.value else freshId;
      var product := Product(id, input.value.name, input.value.price, input.value.quantity);
      r := repository.UpsertProduct(product, reachable);
      if r.Pass? {
        uiState := Finished;
        trace := trace + [uiState];
      }
    }

    /**
     * `deleteProduct()`. Without an id, nothing happens. With one, the
     * product shown is deleted through the repository and the screen shows
     * `Finished` once that returns; if no product is shown, the screen shows
     * the not-found error and the repository is not called.
     */
    method DeleteProduct(reachable: bool) returns (r: Outcome<RemoteError>)
      requires Valid()
      modifies this, repository, repository.dao, repository.remote
      ensures Valid()
      ensures productId.None? ==>
        && r == Pass && uiState == old(uiState) && trace == old(trace)
        && repository.ops == old(repository.ops)
        && repository.dao.products == old(repository.dao.products)
        && repository.remote.documents == old(repository.remote.documents)
      ensures productId.Some? && old(uiState).Success? && old(uiState).product.Some? ==>
        var product := old(uiState).product.value;
        && (r.Pass? <==> reachable)
        && repository.ops == old(repository.ops) + DeleteOps(product, r.Pass?)
        && (r.Pass? ==> repository.GetProductById(product.id) == None)
        && (r.Pass? ==> repository.dao.products == TableDelete(old(repository.dao.products), ToEntity(product)))
        && (r.Pass? ==> repository.remote.documents == old(repository.remote.documents) - {product.id})
        && (r.Fail? ==> repository.dao.products == old(repository.dao.products))
        && (r.Fail? ==> repository.remote.documents == old(repository.remote.documents))
        && trace == old(trace) + (if r.Pass? then [Finished] else [])
      ensures productId.Some? && !(old(uiState).Success? && old(uiState).product.Some?) ==>
        && r == Pass
        && repository.ops == old(repository.ops)
        && repository.dao.products == old(repository.dao.products)
        && repository.remote.documents == old(repository.remote.documents)
        && trace == old(trace) + [Error(ProductNotFoundMessage)]
    {
      if productId.None? {
        return Pass;
      }
      var current := uiState;
      if current.Success? && current.product.Some? {
        r := repository.DeleteProduct(current.product.value, reachable);
        if r.Pass? {
          uiState := Finished;
          trace := trace + [uiState];
        }
      } else {
        uiState := Error(ProductNotFoundMessage);
        trace := trace + [uiState];
        r := Pass;
      }
    }
  }
}

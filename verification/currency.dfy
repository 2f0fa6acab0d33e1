/** Currency identifiers: the validator `parseCurrency` / `parseCurrencyPair`
    of the exchange-rates report, the exchange-currency guard at the top of
    the top-markets and network-value reports, and the enumeration of the
    gateway registry's (currency, issuer) listings. */
module Currency {
  import opened Common
  import opened Strings

  /** The ledger's own unit as the exchange-rates and top-markets reports name it. */
  const Xps := "XPS"

  /** A `{currency, issuer}` object as it arrives in a request; an absent
      field is `None`. */
  datatype RawCurrency = RawCurrency(currency: Option<string>, issuer: Option<string>)

  /** A request's `{base, counter}` entry. */
  datatype RawPair = RawPair(base: Option<RawCurrency>, counter: Option<RawCurrency>)

  /** A validated currency: the native unit never carries an issuer, every
      other code always does. `name` is the gateway's label, when known. */
  datatype Currency = Native | Issued(code: string, issuer: string, name: Option<string>)

  datatype CurrencyPair = CurrencyPair(base: Currency, counter: Currency)

  datatype Account = Account(address: string, currencies: seq<string>)
  datatype Gateway = Gateway(accounts: seq<Account>)

  /** The read-only collaborators: the address syntax check, the two
      directions of the gateway-name table, and the list of gateways. */
  datatype Registry = Registry(
    isValidAddress: string -> bool,
    gatewayName: string -> Option<string>,
    nameToAddress: (string, string) -> Option<string>,
    gateways: seq<Gateway>)

  // ---------------------------------------------------------------------
  // parseCurrency / parseCurrencyPair

  /** Validates one currency of the exchange-rates request. The code is
      matched case-insensitively and stored upper-cased; a non-native code
      needs an issuer, which is kept when it is an address and otherwise
      looked up as a gateway name. */
  function ParseCurrency(reg: Registry, c: RawCurrency): (r: Option<Currency>)
    ensures !Truthy(c.currency) ==> r == None
    ensures Truthy(c.currency) && Upper(c.currency.value) == Xps ==>
              r == (if Truthy(c.issuer) then None else Some(Native))
    ensures r.Some? && r.value.Issued? ==>
              && Truthy(c.currency) && Truthy(c.issuer)
              && r.value.code == Upper(c.currency.value) && r.value.code != Xps
              && r.value.issuer != ""
    ensures r.Some? && r.value.Issued? && reg.isValidAddress(c.issuer.value) ==>
              r.value.issuer == c.issuer.value && r.value.name == reg.gatewayName(c.issuer.value)
    ensures r.Some? && r.value.Issued? && !reg.isValidAddress(c.issuer.value) ==>
              Some(r.value.issuer) == reg.nameToAddress(c.issuer.value, r.value.code)
              && r.value.name == c.issuer
    ensures Truthy(c.currency) && Upper(c.currency.value) != Xps ==>
              (r.Some? <==>
                 (Truthy(c.issuer) &&
                  (reg.isValidAddress(c.issuer.value) ||
                   Truthy(reg.nameToAddress(c.issuer.value, Upper(c.currency.value))))))
  {
    if !Truthy(c.currency) then None
    else
      var code := Upper(c.currency.value);
      if code == Xps then
        if Truthy(c.issuer) then None else Some(Native)
      else if !Truthy(c.issuer) then None
      else if reg.isValidAddress(c.issuer.value) then
        Some(Issued(code, c.issuer.value, reg.gatewayName(c.issuer.value)))
      else
        var address := reg.nameToAddress(c.issuer.value, code);
        if !Truthy(address) then None
        else Some(Issued(code, address.value, Some(c.issuer.value)))
  }

  /** Case does not matter: upper-casing the code first changes nothing. */
  lemma ParseCurrencyIgnoresCase(reg: Registry, code: string, issuer: Option<string>)
    ensures ParseCurrency(reg, RawCurrency(Some(Upper(code)), issuer))
         == ParseCurrency(reg, RawCurrency(Some(code), issuer))
  {
    UpperIdempotent(code);
    UpperEmpty(code);
  }

  /** An issuer given as a registry gateway name and the address that name
      resolves to produce the same canonical currency and issuer. */
  lemma AddressAndNameAgree(reg: Registry, code: string, gatewayName: string, address: string)
    requires Upper(code) != Xps && code != ""
    requires gatewayName != "" && !reg.isValidAddress(gatewayName)
    requires address != "" && reg.isValidAddress(address)
    requires reg.nameToAddress(gatewayName, Upper(code)) == Some(address)
    ensures var byName := ParseCurrency(reg, RawCurrency(Some(code), Some(gatewayName)));
            var byAddress := ParseCurrency(reg, RawCurrency(Some(code), Some(address)));
            && byName.Some? && byAddress.Some?
            && byName.value.Issued? && byAddress.value.Issued?
            && byName.value.code == byAddress.value.code == Upper(code)
            && byName.value.issuer == byAddress.value.issuer == address
  {
  }

  /** Validates the two sides of a requested pair; both must be present and both must parse. */
  function ParseCurrencyPair(reg: Registry, p: RawPair): (r: Option<CurrencyPair>)
    ensures r.Some? <==>
              && p.base.Some? && p.counter.Some?
              && ParseCurrency(reg, p.base.value).Some?
              && ParseCurrency(reg, p.counter.value).Some?
    ensures r.Some? ==>
              r.value == CurrencyPair(ParseCurrency(reg, p.base.value).value,
                                      ParseCurrency(reg, p.counter.value).value)
  {
    if p.base.None? || p.counter.None? then None
    else
      var base := ParseCurrency(reg, p.base.value);
      var counter := ParseCurrency(reg, p.counter.value);
      if base.None? || counter.None? then None
      else Some(CurrencyPair(base.value, counter.value))
  }

  // ---------------------------------------------------------------------
  // The exchange-currency guard of the top-markets and network-value reports

  /** A request field of unknown JavaScript type. */
  datatype Field = Missing | StringField(s: string) | NonString(truthy: bool)

  /** `params.exchange`: falsy (so the default applies), some non-object
      value, or an object with `currency` and `issuer` fields. */
  datatype RawExchange = Falsy | NonObject | Object(currency: Field, issuer: Option<string>)

  /** An accepted exchange currency, kept exactly as the request spelled it. */
  datatype Exchange = Exchange(currency: string, issuer: Option<string>)

  predicate FieldTruthy(f: Field) {
    match f
    case Missing => false
    case StringField(s) => s != ""
    case NonString(t) => t
  }

  /** The guard, parameterized by the native code ("XPS" or "STR"). */
  function ValidateExchange(native: string, raw: RawExchange): (r: Result<Exchange>)
    requires native != "" && Upper(native) == native
    ensures raw.Falsy? ==> r == Ok(Exchange(native, None))
    ensures raw.NonObject? ==> r == Err(Text("invalid exchange currency"))
    ensures raw.Object? && !FieldTruthy(raw.currency) ==> r == Err(Text("exchange currency is required"))
    ensures raw.Object? && raw.currency.NonString? && raw.currency.truthy ==>
              r == Err(Text("invalid exchange currency"))
    ensures raw.Object? && raw.currency.StringField? && raw.currency.s != "" ==>
              (r.Ok? <==> (Upper(raw.currency.s) == native || Truthy(raw.issuer))
                          && !(raw.currency.s == native && Truthy(raw.issuer)))
    ensures r.Ok? && raw.Object? ==> r.value == Exchange(raw.currency.s, raw.issuer)
    ensures r.Ok? ==>
              (r.value.currency != "" &&
               (Upper(r.value.currency) == native || Truthy(r.value.issuer)))
    ensures r.Err? && raw.Object? && raw.currency.StringField? && raw.currency.s != "" ==>
              r.error == (if Upper(raw.currency.s) != native && !Truthy(raw.issuer)
                          then Text("exchange issuer is required")
                          else Text(native + " cannot have an issuer"))
  {
    match raw
    case Falsy => Ok(Exchange(native, None))
    case NonObject => Err(Text("invalid exchange currency"))
    case Object(currency, issuer) =>
      if !FieldTruthy(currency) then Err(Text("exchange currency is required"))
      else if !currency.StringField? then Err(Text("invalid exchange currency"))
      else if Upper(currency.s) != native && !Truthy(issuer) then Err(Text("exchange issuer is required"))
      else if currency.s == native && Truthy(issuer) then Err(Text(native + " cannot have an issuer"))
      else Ok(Exchange(currency.s, issuer))
  }

  /** The guard compares case-sensitively when rejecting an issuer: the
      native code spelled in lower case passes with an issuer attached. */
  lemma LowerCaseNativeWithIssuerPasses(issuer: string)
    requires issuer != ""
    ensures ValidateExchange(Xps, Object(StringField("xps"), Some(issuer))).Ok?
    ensures ValidateExchange(Xps, Object(StringField(Xps), Some(issuer))).Err?
  {
    assert Upper("xps") == Xps;
  }

  // ---------------------------------------------------------------------
  // The registry's listings

  /** One (currency, issuing account) entry of the gateway registry. */
  datatype Listing = Listing(currency: string, issuer: string)

  function AccountListings(a: Account): (r: seq<Listing>)
    ensures |r| == |a.currencies|
    ensures forall k :: 0 <= k < |r| ==> r[k] == Listing(a.currencies[k], a.address)
  {
    seq(|a.currencies|, k requires 0 <= k < |a.currencies| => Listing(a.currencies[k], a.address))
  }

  function GatewayListings(accounts: seq<Account>): seq<Listing>
  {
    if accounts == [] then [] else AccountListings(accounts[0]) + GatewayListings(accounts[1..])
  }

  /** Every (gateway, account, currency) of the registry, flattened in
      registry order; each listing comes from an account of the registry
      that lists that currency. */
  function Listings(gateways: seq<Gateway>): (r: seq<Listing>)
    ensures forall l :: l in r ==> exists i, j, k :: ListedAt(gateways, l, i, j, k)
  {
    if gateways == [] then []
    else
      var head := GatewayListings(gateways[0].accounts);
      var tail := Listings(gateways[1..]);
      assert forall l :: l in head ==> exists j, k :: ListedAt(gateways, l, 0, j, k) by {
        forall l | l in head
          ensures exists j, k :: ListedAt(gateways, l, 0, j, k)
        {
          GatewayListingsMembership(gateways[0].accounts, l);
          var j, k :| 0 <= j < |gateways[0].accounts| && 0 <= k < |gateways[0].accounts[j].currencies| &&
                      l == Listing(gateways[0].accounts[j].currencies[k], gateways[0].accounts[j].address);
          assert ListedAt(gateways, l, 0, j, k);
        }
      }
      assert forall l :: l in tail ==> exists i, j, k :: ListedAt(gateways, l, i, j, k) by {
        forall l | l in tail
          ensures exists i, j, k :: ListedAt(gateways, l, i, j, k)
        {
          var i, j, k :| ListedAt(gateways[1..], l, i, j, k);
          assert ListedAt(gateways, l, i + 1, j, k);
        }
      }
      head + tail
  }

  /** The listing for currency `k` of account `j` of gateway `i`. */
  predicate ListedAt(gateways: seq<Gateway>, l: Listing, i: int, j: int, k: int) {
    && 0 <= i < |gateways|
    && 0 <= j < |gateways[i].accounts|
    && 0 <= k < |gateways[i].accounts[j].currencies|
    && l == Listing(gateways[i].accounts[j].currencies[k], gateways[i].accounts[j].address)
  }

  lemma {:induction false} GatewayListingsMembership(accounts: seq<Account>, l: Listing)
    ensures l in GatewayListings(accounts) <==>
            exists j, k :: 0 <= j < |accounts| && 0 <= k < |accounts[j].currencies| &&
                           l == Listing(accounts[j].currencies[k], accounts[j].address)
  {
    if accounts != [] {
      GatewayListingsMembership(accounts[1..], l);
      if l in AccountListings(accounts[0]) {
        var k :| 0 <= k < |accounts[0].currencies| && AccountListings(accounts[0])[k] == l;
        assert l == Listing(accounts[0].currencies[k], accounts[0].address);
      }
      if exists j, k :: 0 <= j < |accounts| && 0 <= k < |accounts[j].currencies| &&
                        l == Listing(accounts[j].currencies[k], accounts[j].address) {
        var j, k :| 0 <= j < |accounts| && 0 <= k < |accounts[j].currencies| &&
                    l == Listing(accounts[j].currencies[k], accounts[j].address);
        if j == 0 {
          assert AccountListings(accounts[0])[k] == l;
        } else {
          assert accounts[1..][j - 1] == accounts[j];
        }
      }
    }
  }

  /** A listing is enumerated exactly when the registry holds it. */
  lemma {:induction false} ListingsMembership(gateways: seq<Gateway>, l: Listing)
    ensures l in Listings(gateways) <==> exists i, j, k :: ListedAt(gateways, l, i, j, k)
  {
    if gateways != [] {
      ListingsMembership(gateways[1..], l);
      GatewayListingsMembership(gateways[0].accounts, l);
      if l in GatewayListings(gateways[0].accounts) {
        var j, k :| 0 <= j < |gateways[0].accounts| && 0 <= k < |gateways[0].accounts[j].currencies| &&
                    l == Listing(gateways[0].accounts[j].currencies[k], gateways[0].accounts[j].address);
        assert ListedAt(gateways, l, 0, j, k);
      }
      if l in Listings(gateways[1..]) {
        var i, j, k :| ListedAt(gateways[1..], l, i, j, k);
        assert ListedAt(gateways, l, i + 1, j, k);
      }
      if exists i, j, k :: ListedAt(gateways, l, i, j, k) {
        var i, j, k :| ListedAt(gateways, l, i, j, k);
        if i > 0 {
          assert ListedAt(gateways[1..], l, i - 1, j, k);
        }
      }
    }
  }

  /** Enumeration keeps registry order: the listings of a split registry are
      the listings of its halves, one after the other. */
  lemma {:induction false} ListingsAppend(g1: seq<Gateway>, g2: seq<Gateway>)
    ensures Listings(g1 + g2) == Listings(g1) + Listings(g2)
  {
    if g1 != [] {
      assert (g1 + g2)[1..] == g1[1..] + g2;
      ListingsAppend(g1[1..], g2);
    } else {
      assert g1 + g2 == g2;
    }
  }
}

/** The names SEP-1 lists: each is one plain word, and no list holds one of them twice. */
module Sep1Names {
  import opened FormatDoc

  /** A word without dots, quotes, backslashes and white space. */
  predicate IsName(s: string) {
    s != "" && forall i | 0 <= i < |s| :: '.' < s[i] <= 'z' && s[i] != '\\'
  }

  lemma SectionNames1()
    ensures IsName("DOCUMENTATION") && IsName("PRINCIPALS") && IsName("CURRENCIES") && IsName("VALIDATORS")
  {
  }

  lemma SectionNames()
    ensures forall f | f in TABLE_ORDER :: IsName(f)
    ensures forall i, j | 0 <= i < j < |TABLE_ORDER| :: TABLE_ORDER[i] != TABLE_ORDER[j]
  {
    hide IsName;
    SectionNames1();
    SectionApart();
  }

  lemma SectionApart()
    ensures forall i, j | 0 <= i < j < |TABLE_ORDER| :: TABLE_ORDER[i] != TABLE_ORDER[j]
  {
  }

  lemma GlobalNames1()
    ensures IsName("VERSION") && IsName("NETWORK_PASSPHRASE") && IsName("FEDERATION_SERVER") &&
      IsName("AUTH_SERVER") && IsName("TRANSFER_SERVER")
  {
  }

  lemma GlobalNames2()
    ensures IsName("TRANSFER_SERVER_SEP0024") && IsName("KYC_SERVER") && IsName("WEB_AUTH_ENDPOINT")
  {
  }

  lemma GlobalNames3()
    ensures IsName("WEB_AUTH_FOR_CONTRACTS_ENDPOINT")
  {
  }

  lemma GlobalNames4()
    ensures IsName("WEB_AUTH_CONTRACT_ID") && IsName("SIGNING_KEY") && IsName("HORIZON_URL") && IsName("ACCOUNTS") &&
      IsName("URI_REQUEST_SIGNING_KEY")
  {
  }

  lemma GlobalNames5()
    ensures IsName("DIRECT_PAYMENT_SERVER") && IsName("ANCHOR_QUOTE_SERVER")
  {
  }

  lemma GlobalNames()
    ensures forall f | f in GLOBAL_FIELDS :: IsName(f)
    ensures forall i, j | 0 <= i < j < |GLOBAL_FIELDS| :: GLOBAL_FIELDS[i] != GLOBAL_FIELDS[j]
  {
    hide IsName;
    GlobalNames1();
    GlobalNames2();
    GlobalNames3();
    GlobalNames4();
    GlobalNames5();
    GlobalApart();
  }

  lemma GlobalApart()
    ensures forall i, j | 0 <= i < j < |GLOBAL_FIELDS| :: GLOBAL_FIELDS[i] != GLOBAL_FIELDS[j]
  {
  }

  lemma DocumentationNames1()
    ensures IsName("ORG_NAME") && IsName("ORG_DBA") && IsName("ORG_URL") && IsName("ORG_LOGO") &&
      IsName("ORG_DESCRIPTION") && IsName("ORG_PHYSICAL_ADDRESS")
  {
  }

  lemma DocumentationNames2()
    ensures IsName("ORG_PHYSICAL_ADDRESS_ATTESTATION") && IsName("ORG_PHONE_NUMBER")
  {
  }

  lemma DocumentationNames3()
    ensures IsName("ORG_PHONE_NUMBER_ATTESTATION") && IsName("ORG_KEYBASE") && IsName("ORG_TWITTER") &&
      IsName("ORG_GITHUB") && IsName("ORG_TELEGRAM")
  {
  }

  lemma DocumentationNames4()
    ensures IsName("ORG_OFFICIAL_EMAIL") && IsName("ORG_SUPPORT_EMAIL") && IsName("ORG_LICENSING_AUTHORITY")
  {
  }

  lemma DocumentationNames5()
    ensures IsName("ORG_LICENSE_TYPE") && IsName("ORG_LICENSE_NUMBER") && IsName("ORG_TERMS_OF_SERVICE")
  {
  }

  lemma DocumentationNames6()
    ensures IsName("ORG_PRIVACY_POLICY")
  {
  }

  lemma DocumentationNames()
    ensures forall f | f in DOCUMENTATION_FIELDS :: IsName(f)
    ensures forall i, j | 0 <= i < j < |DOCUMENTATION_FIELDS| :: DOCUMENTATION_FIELDS[i] != DOCUMENTATION_FIELDS[j]
  {
    hide IsName;
    DocumentationNames1();
    DocumentationNames2();
    DocumentationNames3();
    DocumentationNames4();
    DocumentationNames5();
    DocumentationNames6();
    DocumentationApart();
  }

  lemma DocumentationApart()
    ensures forall i, j | 0 <= i < j < |DOCUMENTATION_FIELDS| :: DOCUMENTATION_FIELDS[i] != DOCUMENTATION_FIELDS[j]
  {
  }

  lemma PrincipalNames1()
    ensures IsName("name") && IsName("email") && IsName("keybase") && IsName("telegram") && IsName("twitter") &&
      IsName("github") && IsName("id_photo_hash") && IsName("verification_photo_hash")
  {
  }

  lemma PrincipalNames()
    ensures forall f | f in PRINCIPAL_FIELDS :: IsName(f)
    ensures forall i, j | 0 <= i < j < |PRINCIPAL_FIELDS| :: PRINCIPAL_FIELDS[i] != PRINCIPAL_FIELDS[j]
  {
    hide IsName;
    PrincipalNames1();
    PrincipalApart();
  }

  lemma PrincipalApart()
    ensures forall i, j | 0 <= i < j < |PRINCIPAL_FIELDS| :: PRINCIPAL_FIELDS[i] != PRINCIPAL_FIELDS[j]
  {
  }

  lemma CurrencyNames1()
    ensures IsName("code") && IsName("issuer") && IsName("contract") && IsName("code_template") && IsName("status") &&
      IsName("display_decimals") && IsName("name") && IsName("desc") && IsName("conditions") && IsName("image") &&
      IsName("fixed_number") && IsName("max_number") && IsName("is_unlimited")
  {
  }

  lemma CurrencyNames2()
    ensures IsName("is_asset_anchored") && IsName("anchor_asset_type") && IsName("anchor_asset") &&
      IsName("attestation_of_reserve")
  {
  }

  lemma CurrencyNames3()
    ensures IsName("redemption_instructions") && IsName("collateral_addresses")
  {
  }

  lemma CurrencyNames4()
    ensures IsName("collateral_address_messages")
  {
  }

  lemma CurrencyNames5()
    ensures IsName("collateral_address_signatures") && IsName("regulated") && IsName("approval_server")
  {
  }

  lemma CurrencyNames6()
    ensures IsName("approval_criteria") && IsName("toml")
  {
  }

  lemma CurrencyNames()
    ensures forall f | f in CURRENCY_FIELDS :: IsName(f)
    ensures forall i, j | 0 <= i < j < |CURRENCY_FIELDS| :: CURRENCY_FIELDS[i] != CURRENCY_FIELDS[j]
  {
    hide IsName;
    CurrencyNames1();
    CurrencyNames2();
    CurrencyNames3();
    CurrencyNames4();
    CurrencyNames5();
    CurrencyNames6();
    CurrencyApart();
  }

  lemma CurrencyApart()
    ensures forall i, j | 0 <= i < j < |CURRENCY_FIELDS| :: CURRENCY_FIELDS[i] != CURRENCY_FIELDS[j]
  {
  }

  lemma ValidatorNames1()
    ensures IsName("ALIAS") && IsName("DISPLAY_NAME") && IsName("PUBLIC_KEY") && IsName("HOST") && IsName("HISTORY")
  {
  }

  lemma ValidatorNames()
    ensures forall f | f in VALIDATOR_FIELDS :: IsName(f)
    ensures forall i, j | 0 <= i < j < |VALIDATOR_FIELDS| :: VALIDATOR_FIELDS[i] != VALIDATOR_FIELDS[j]
  {
    hide IsName;
    ValidatorNames1();
    ValidatorApart();
  }

  lemma ValidatorApart()
    ensures forall i, j | 0 <= i < j < |VALIDATOR_FIELDS| :: VALIDATOR_FIELDS[i] != VALIDATOR_FIELDS[j]
  {
  }
}

/**
 The key under which the authentication middleware caches its token verifier: the settings that matter, trimmed and
 joined with a bar.
 */
module Fingerprint {
  import opened Joining
  import opened Text

  /** The authentication settings. The three file names do not enter the key. */
  datatype Config = Config(
    internalIssuerUrl: string, externalIssuerUrl: string, clientId: string, clientIdFile: string,
    tokenValidationMode: string, introspectionUrl: string, introspectionClientId: string,
    introspectionClientSecret: string, introspectionAuthMethod: string, introspectionClientIdFile: string,
    introspectionSecretFile: string, enforceAudience: bool, allowInsecureIssuer: bool,
    claimSubjectPath: string, claimRolesPath: string, claimScopesPath: string, claimTenantPath: string,
    claimEmailPath: string, claimNamePath: string)

  /** The key's parts. The client secret is the only setting that is not trimmed. */
  function Parts(c: Config): (parts: seq<string>)
    ensures |parts| == 16
  {
    [TrimSpace(c.internalIssuerUrl), TrimSpace(c.externalIssuerUrl)] + OtherParts(c)
  }

  function OtherParts(c: Config): (parts: seq<string>)
    ensures |parts| == 14
  {
    [TrimSpace(c.clientId), TrimSpace(c.tokenValidationMode), TrimSpace(c.introspectionUrl),
     TrimSpace(c.introspectionClientId), c.introspectionClientSecret, TrimSpace(c.introspectionAuthMethod),
     TrimSpace(c.claimSubjectPath), TrimSpace(c.claimRolesPath), TrimSpace(c.claimScopesPath),
     TrimSpace(c.claimTenantPath), TrimSpace(c.claimEmailPath), TrimSpace(c.claimNamePath),
     AudienceWord(c), IssuerWord(c)]
  }

  function AudienceWord(c: Config): string {
    if c.enforceAudience then "audience:on" else "audience:off"
  }

  function IssuerWord(c: Config): string {
    if c.allowInsecureIssuer then "issuer:insecure" else "issuer:strict"
  }

  function Of(c: Config): string {
    Join(Parts(c))
  }

  // ---- What the key says of a configuration ----

  /** The two configurations have the same fingerprinted settings, up to blanks around them. */
  predicate SameSettings(c: Config, d: Config) {
    Parts(c) == Parts(d)
  }

  /** Every fingerprinted setting is already trimmed. */
  predicate IsTrimmedConfig(c: Config) {
    && IsTrimmed(c.internalIssuerUrl, GO_SPACE) && IsTrimmed(c.externalIssuerUrl, GO_SPACE)
    && IsTrimmed(c.clientId, GO_SPACE) && IsTrimmed(c.tokenValidationMode, GO_SPACE)
    && IsTrimmed(c.introspectionUrl, GO_SPACE) && IsTrimmed(c.introspectionClientId, GO_SPACE)
    && IsTrimmed(c.introspectionAuthMethod, GO_SPACE) && IsTrimmed(c.claimSubjectPath, GO_SPACE)
    && IsTrimmed(c.claimRolesPath, GO_SPACE) && IsTrimmed(c.claimScopesPath, GO_SPACE)
    && IsTrimmed(c.claimTenantPath, GO_SPACE) && IsTrimmed(c.claimEmailPath, GO_SPACE)
    && IsTrimmed(c.claimNamePath, GO_SPACE)
  }

  /** The configuration with the settings that do not enter the key taken from another. */
  function WithFilesOf(c: Config, d: Config): Config {
    c.(clientIdFile := d.clientIdFile, introspectionClientIdFile := d.introspectionClientIdFile,
       introspectionSecretFile := d.introspectionSecretFile)
  }

  predicate HasBar(parts: seq<string>) {
    exists i :: 0 <= i < |parts| && '|' in parts[i]
  }

  lemma LetterIsNoSpace(c: char)
    requires 'a' <= c <= 'z'
    ensures c !in GO_SPACE
  {
  }

  /** The four words for the two switches. */
  lemma WordsHoldNoBar(word: string)
    requires word in ["audience:on", "audience:off", "issuer:insecure", "issuer:strict"]
    ensures |word| > 9 && 'a' <= word[0] <= 'z' && 'a' <= word[|word| - 1] <= 'z' && '|' !in word
  {
  }

  lemma WordIsTrimmed(word: string)
    requires |word| > 9 && 'a' <= word[0] <= 'z' && 'a' <= word[|word| - 1] <= 'z'
    ensures IsTrimmed(word, GO_SPACE)
  {
    LetterIsNoSpace(word[0]);
    LetterIsNoSpace(word[|word| - 1]);
  }

  lemma WordsAreTrimmed(c: Config)
    ensures
      var p := Parts(c);
      IsTrimmed(p[14], GO_SPACE) && IsTrimmed(p[15], GO_SPACE) && '|' !in p[14] && '|' !in p[15]
  {
    var p := Parts(c);
    WordsHoldNoBar(p[14]);
    WordsHoldNoBar(p[15]);
    WordIsTrimmed(p[14]);
    WordIsTrimmed(p[15]);
  }

  lemma PartsAreTrimmed(c: Config)
    ensures AreTrimmed(Parts(c))
  {
    WordsAreTrimmed(c);
    OtherPartsAreTrimmed(c);
  }

  lemma OtherPartsAreTrimmed(c: Config)
    ensures forall i :: 0 <= i < 12 && i != 4 ==> IsTrimmed(OtherParts(c)[i], GO_SPACE)
  {
  }

  /** The configuration with these texts as its fingerprinted settings. */
  function WithTexts(c: Config, p: seq<string>): Config
    requires |p| == 16
  {
    c.(internalIssuerUrl := p[0], externalIssuerUrl := p[1], clientId := p[2], tokenValidationMode := p[3],
       introspectionUrl := p[4], introspectionClientId := p[5], introspectionClientSecret := p[6],
       introspectionAuthMethod := p[7], claimSubjectPath := p[8], claimRolesPath := p[9], claimScopesPath := p[10],
       claimTenantPath := p[11], claimEmailPath := p[12], claimNamePath := p[13])
  }

  /** Trimmed texts with the words of some configuration are the parts of a configuration. */
  lemma TextsAreParts(c: Config, p: seq<string>)
    requires |p| == 16 && AreTrimmed(p) && p[14..] == Parts(c)[14..]
    ensures Parts(WithTexts(c, p)) == p
  {
    var d := WithTexts(c, p);
    assert IsTrimmedConfig(d) by {
      assert IsTrimmed(p[0], GO_SPACE) && IsTrimmed(p[1], GO_SPACE) && IsTrimmed(p[2], GO_SPACE);
      assert IsTrimmed(p[3], GO_SPACE) && IsTrimmed(p[4], GO_SPACE) && IsTrimmed(p[5], GO_SPACE);
      assert IsTrimmed(p[7], GO_SPACE) && IsTrimmed(p[8], GO_SPACE) && IsTrimmed(p[9], GO_SPACE);
      assert IsTrimmed(p[10], GO_SPACE) && IsTrimmed(p[11], GO_SPACE) && IsTrimmed(p[12], GO_SPACE);
      assert IsTrimmed(p[13], GO_SPACE);
    }
    TrimmedSettings(d);
    WordsOfTexts(c, p);
  }

  lemma WordsOfTexts(c: Config, p: seq<string>)
    requires |p| == 16 && p[14..] == Parts(c)[14..]
    ensures RawParts(WithTexts(c, p)) == p
  {
    assert p[14] == p[14..][0] == Parts(c)[14..][0] && p[15] == p[14..][1] == Parts(c)[14..][1];
    OthersOfTexts(c, p, p[2..]);
    assert p == [p[0], p[1]] + p[2..];
  }

  lemma OthersOfTexts(c: Config, p: seq<string>, others: seq<string>)
    requires |p| == 16 && others == p[2..] && p[14] == AudienceWord(c) && p[15] == IssuerWord(c)
    ensures RawOthers(WithTexts(c, p)) == others
  {
    assert others[0] == p[2] && others[1] == p[3] && others[2] == p[4] && others[3] == p[5] && others[4] == p[6];
    assert others[5] == p[7] && others[6] == p[8] && others[7] == p[9] && others[8] == p[10] && others[9] == p[11];
    assert others[10] == p[12] && others[11] == p[13] && others[12] == p[14] && others[13] == p[15];
  }

  /** The key tells the settings of a configuration: no other settings have it. */
  ghost predicate KeyTells(c: Config) {
    forall d :: Of(d) == Of(c) ==> SameSettings(c, d)
  }

  lemma MovableInWords(c: Config, i: nat, k: nat)
    requires IsMovable(Parts(c), i, k)
    ensures i < 14
  {
    WordsAreTrimmed(c);
    assert '|' in Parts(c)[i];
  }

  /**
   The key tells the settings of a configuration if and only if no bar inside one of them is movable: every such bar has
   a blank beside it, and beside the secret the blank is on the side that faces away from it.
   */
  lemma KeyTellsIff(c: Config)
    ensures KeyTells(c) <==> !HasMovable(Parts(c))
  {
    PartsAreTrimmed(c);
    if HasMovable(Parts(c)) {
      var i: nat, k: nat :| IsMovable(Parts(c), i, k);
      MovableInWords(c, i, k);
      var q := MovableCollides(Parts(c), i, k);
      TextsAreParts(c, q);
      assert Of(WithTexts(c, q)) == Of(c) && !SameSettings(c, WithTexts(c, q));
    } else {
      forall d | Of(d) == Of(c) ensures SameSettings(c, d) {
        PartsAreTrimmed(d);
        NoMovableDetermines(Parts(c), Parts(d));
      }
    }
  }

  /** The configuration with its settings trimmed, all but the secret. */
  function Tidied(c: Config): Config {
    c.(internalIssuerUrl := TrimSpace(c.internalIssuerUrl), externalIssuerUrl := TrimSpace(c.externalIssuerUrl),
       clientId := TrimSpace(c.clientId), tokenValidationMode := TrimSpace(c.tokenValidationMode),
       introspectionUrl := TrimSpace(c.introspectionUrl), introspectionClientId := TrimSpace(c.introspectionClientId),
       introspectionAuthMethod := TrimSpace(c.introspectionAuthMethod),
       claimSubjectPath := TrimSpace(c.claimSubjectPath), claimRolesPath := TrimSpace(c.claimRolesPath),
       claimScopesPath := TrimSpace(c.claimScopesPath), claimTenantPath := TrimSpace(c.claimTenantPath),
       claimEmailPath := TrimSpace(c.claimEmailPath), claimNamePath := TrimSpace(c.claimNamePath))
  }

  /** Blanks around any setting but the secret make no difference to the key. */
  lemma KeyIgnoresBlanks(c: Config)
    ensures Of(Tidied(c)) == Of(c) && IsTrimmedConfig(Tidied(c))
    ensures Tidied(c).introspectionClientSecret == c.introspectionClientSecret
  {
    TrimmedSettings(Tidied(c));
    assert RawOthers(Tidied(c)) == OtherParts(c);
  }

  /** So when one of two configurations has no bar in a setting, equal keys mean equal settings. */
  lemma KeyTellsSettings(c: Config, d: Config)
    requires !HasBar(Parts(c))
    ensures Of(c) == Of(d) <==> SameSettings(c, d)
  {
    KeyTellsIff(c);
    if HasMovable(Parts(c)) {
      MovableIsBar(Parts(c));
    }
  }

  lemma MovableIsBar(parts: seq<string>)
    requires HasMovable(parts)
    ensures HasBar(parts)
  {
    var i: nat, k: nat :| IsMovable(parts, i, k);
    assert '|' in parts[i];
  }

  /** And for trimmed configurations without movable bars the key tells all of them apart, but for the file names. */
  lemma KeyIsInjective(c: Config, d: Config)
    requires !HasMovable(Parts(c)) && IsTrimmedConfig(c) && IsTrimmedConfig(d)
    ensures Of(c) == Of(d) <==> d == WithFilesOf(c, d)
  {
    KeyTellsIff(c);
    TrimmedSettings(c);
    TrimmedSettings(d);
    RawPartsTell(c, d);
  }

  /** The key's parts as they are written. */
  function RawParts(c: Config): seq<string> {
    [c.internalIssuerUrl, c.externalIssuerUrl] + RawOthers(c)
  }

  function RawOthers(c: Config): seq<string> {
    [c.clientId, c.tokenValidationMode, c.introspectionUrl, c.introspectionClientId, c.introspectionClientSecret,
     c.introspectionAuthMethod, c.claimSubjectPath, c.claimRolesPath, c.claimScopesPath, c.claimTenantPath,
     c.claimEmailPath, c.claimNamePath, AudienceWord(c), IssuerWord(c)]
  }

  lemma RawPartsTell(c: Config, d: Config)
    ensures RawParts(c) == RawParts(d) <==> d == WithFilesOf(c, d)
  {
    var p, q := RawParts(c), RawParts(d);
    if p == q {
      assert p[0] == q[0] && p[1] == q[1] && p[2] == q[2] && p[3] == q[3] && p[4] == q[4] && p[5] == q[5];
      assert p[6] == q[6] && p[7] == q[7] && p[8] == q[8] && p[9] == q[9] && p[10] == q[10] && p[11] == q[11];
      assert p[12] == q[12] && p[13] == q[13] && p[14] == q[14] && p[15] == q[15];
      assert |"audience:on"| != |"audience:off"| && |"issuer:insecure"| != |"issuer:strict"|;
    }
  }

  lemma TrimmedSettings(c: Config)
    requires IsTrimmedConfig(c)
    ensures Parts(c) == RawParts(c)
  {
    TrimmedStays(c.internalIssuerUrl, GO_SPACE);
    TrimmedStays(c.externalIssuerUrl, GO_SPACE);
    OtherTrimmedSettings(c);
  }

  lemma OtherTrimmedSettings(c: Config)
    requires IsTrimmedConfig(c)
    ensures OtherParts(c) == RawOthers(c)
  {
    TrimmedStays(c.clientId, GO_SPACE);
    TrimmedStays(c.tokenValidationMode, GO_SPACE);
    TrimmedStays(c.introspectionUrl, GO_SPACE);
    TrimmedStays(c.introspectionClientId, GO_SPACE);
    TrimmedStays(c.introspectionAuthMethod, GO_SPACE);
    TrimmedStays(c.claimSubjectPath, GO_SPACE);
    TrimmedStays(c.claimRolesPath, GO_SPACE);
    TrimmedStays(c.claimScopesPath, GO_SPACE);
    TrimmedStays(c.claimTenantPath, GO_SPACE);
    TrimmedStays(c.claimEmailPath, GO_SPACE);
    TrimmedStays(c.claimNamePath, GO_SPACE);
  }

  /** For instance, a bar between two issuer texts can stand in either address, whatever else is configured. */
  lemma IssuersCollide(c: Config, a: string, b: string, e: string)
    requires IsTrimmed(a, GO_SPACE) && IsTrimmed(b, GO_SPACE) && IsTrimmed(e, GO_SPACE)
    ensures
      var p := Parts(c);
      var d1, d2 := WithTexts(c, p[0 := a + "|" + b][1 := e]), WithTexts(c, p[0 := a][1 := b + "|" + e]);
      Of(d1) == Of(d2) && !SameSettings(d1, d2)
  {
    PartsAreTrimmed(c);
    FirstTwoCollide(Parts(c), a, b, e);
    TextsAreParts(c, Parts(c)[0 := a + "|" + b][1 := e]);
    TextsAreParts(c, Parts(c)[0 := a][1 := b + "|" + e]);
  }
}

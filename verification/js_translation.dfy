/**
 * The controller that serves the JavaScript translation resource: it validates
 * its template, applies defaults to its options and assembles the JSON structure
 * handed to the template.
 *
 * The translator's `getTranslations(domains, locale)` is the function `translator`;
 * the rendering of the template and the HTTP response are not modelled.
 */
module JsTranslation {
  import opened PhpValues

  /** The template argument: a template name, a template reference object, or any other value. */
  datatype TemplateArg = TemplateName(name: string) | TemplateReference(reference: string) | OtherValue

  /** A PHP scalar, as an option value may hold. */
  datatype Scalar = PhpNull | PhpBool(b: bool) | PhpInt(i: int) | PhpString(s: string)

  /** The controller options `domains` and `debug`; `None` is a missing key. */
  datatype ControllerOptions = ControllerOptions(domains: Option<seq<string>>, debug: Option<Scalar>)

  /** A constructed controller. */
  datatype Controller = Controller(template: TemplateArg, options: ControllerOptions)

  datatype InvalidArgument = InvalidArgumentException(message: string)

  /** Message id => translated text. */
  type Messages = map<string, string>

  /** The structure passed to the template as `json`; `debug` is `None` when the key is absent. */
  datatype TranslationJson = TranslationJson(
    locale: string,
    defaultDomain: string,
    debug: Option<bool>,
    translations: map<string, map<string, Messages>>)

  const InvalidTemplateMessage: string := "Please provide valid twig template as third argument"

  /** PHP's `empty($template)`: a falsy string, or a value that is neither string nor object and is falsy. */
  predicate IsValidTemplate(template: TemplateArg)
  {
    (template.TemplateName? && !IsFalsyString(template.name)) || template.TemplateReference?
  }

  /**
   * `__construct`: the template must be a non-empty string or a template reference;
   * otherwise an InvalidArgumentException is thrown.
   */
  function NewController(template: TemplateArg, options: ControllerOptions): (r: Result<Controller, InvalidArgument>)
    ensures r.Err? <==> !IsValidTemplate(template)
    ensures r.Err? ==> r.error == InvalidArgumentException(InvalidTemplateMessage)
    ensures r.Ok? ==> r.value.template == template && r.value.options == options
  {
    if !IsValidTemplate(template) then Err(InvalidArgumentException(InvalidTemplateMessage))
    else Ok(Controller(template, options))
  }

  /** `(bool)` on a scalar. */
  function ToBool(v: Scalar): bool
  {
    match v
    case PhpNull => false
    case PhpBool(b) => b
    case PhpInt(i) => i != 0
    case PhpString(s) => !IsFalsyString(s)
  }

  /** The `domains` option, `[]` when unset. */
  function EffectiveDomains(options: ControllerOptions): (r: seq<string>)
    ensures options.domains.None? ==> r == []
    ensures options.domains.Some? ==> r == options.domains.value
  {
    if options.domains.Some? then options.domains.value else []
  }

  /** The `debug` option cast to bool, false when unset or null. */
  function EffectiveDebug(options: ControllerOptions): (r: bool)
    ensures options.debug.None? ==> !r
    ensures options.debug.Some? && options.debug.value.PhpNull? ==> !r
    ensures options.debug.Some? && options.debug.value.PhpBool? ==> r == options.debug.value.b
    ensures options.debug.Some? && options.debug.value.PhpInt? ==> r == (options.debug.value.i != 0)
    ensures options.debug.Some? && options.debug.value.PhpString? ==> r == !IsFalsyString(options.debug.value.s)
  {
    if options.debug.Some? && !options.debug.value.PhpNull? then ToBool(options.debug.value) else false
  }

  /** `reset($domains) ?: ''`: the first domain when it is truthy, else the empty string. */
  function DefaultDomain(domains: seq<string>): (r: string)
    ensures domains == [] ==> r == ""
    ensures domains != [] && !IsFalsyString(domains[0]) ==> r == domains[0]
    ensures domains != [] && IsFalsyString(domains[0]) ==> r == ""
  {
    if domains != [] && !IsFalsyString(domains[0]) then domains[0] else ""
  }

  /** The domains named in the translator's answer. */
  function DomainsOf(domainsTranslations: seq<(string, Messages)>): set<string>
  {
    set j | 0 <= j < |domainsTranslations| :: domainsTranslations[j].0
  }

  /** No later entry of `domainsTranslations` names the same domain as entry `j`. */
  predicate IsLastFor(domainsTranslations: seq<(string, Messages)>, j: int)
    requires 0 <= j < |domainsTranslations|
  {
    forall j' :: j < j' < |domainsTranslations| ==> domainsTranslations[j'].0 != domainsTranslations[j].0
  }

  /** The per-domain translations hold every domain of the answer, each with its translations, and nothing else. */
  predicate HoldsTranslations(byDomain: map<string, Messages>, domainsTranslations: seq<(string, Messages)>)
  {
    && byDomain.Keys == DomainsOf(domainsTranslations)
    && forall j :: 0 <= j < |domainsTranslations| && IsLastFor(domainsTranslations, j) ==>
         byDomain[domainsTranslations[j].0] == domainsTranslations[j].1
  }

  /** What the JSON structure holds for the given inputs and translator answer. */
  predicate IsTranslationJson(json: TranslationJson, domains: seq<string>, locale: string, debug: bool,
                              domainsTranslations: seq<(string, Messages)>)
  {
    && json.locale == locale
    && json.defaultDomain == DefaultDomain(domains)
    && json.debug == (if debug then Some(true) else None)
    && json.translations.Keys == {locale}
    && HoldsTranslations(json.translations[locale], domainsTranslations)
  }

  /** Writing entry `i` of the answer into the per-domain map keeps it holding the answer's first `i + 1` entries. */
  lemma HoldsTranslationsStep(byDomain: map<string, Messages>, domainsTranslations: seq<(string, Messages)>, i: nat)
    requires i < |domainsTranslations|
    requires HoldsTranslations(byDomain, domainsTranslations[..i])
    ensures HoldsTranslations(byDomain[domainsTranslations[i].0 := domainsTranslations[i].1], domainsTranslations[..i + 1])
  {
    var done := domainsTranslations[..i + 1];
    var domain := domainsTranslations[i].0;
    assert done[..i] == domainsTranslations[..i];
    assert DomainsOf(done) == DomainsOf(domainsTranslations[..i]) + {domain} by {
      forall d | d in DomainsOf(done) ensures d in DomainsOf(domainsTranslations[..i]) + {domain} {
        var j :| 0 <= j < |done| && done[j].0 == d;
        if j < i { assert domainsTranslations[..i][j] == done[j]; }
      }
      assert done[i].0 == domain;
    }
  }

  /** `renderJsTranslationContent`, up to the rendering: the JSON structure handed to the template. */
  method RenderJsTranslationContent(domains: seq<string>, locale: string, debug: bool,
                                    translator: (seq<string>, string) -> seq<(string, Messages)>)
    returns (json: TranslationJson)
    ensures IsTranslationJson(json, domains, locale, debug, translator(domains, locale))
  {
    var domainsTranslations := translator(domains, locale);
    json := TranslationJson(locale, DefaultDomain(domains), None, map[locale := map[]]);
    if debug {
      json := json.(debug := Some(true));
    }
    var i := 0;
    while i < |domainsTranslations|
      invariant 0 <= i <= |domainsTranslations|
      invariant json.locale == locale && json.defaultDomain == DefaultDomain(domains)
      invariant json.debug == (if debug then Some(true) else None)
      invariant json.translations.Keys == {locale}
      invariant HoldsTranslations(json.translations[locale], domainsTranslations[..i])
    {
      var (domain, translations) := domainsTranslations[i];
      var byDomain' := json.translations[locale][domain := translations];
      HoldsTranslationsStep(json.translations[locale], domainsTranslations, i);
      json := json.(translations := json.translations[locale := byDomain']);
      i := i + 1;
    }
    assert domainsTranslations[..i] == domainsTranslations;
  }

  /**
   * `indexAction`: renders with `domains` defaulting to `[]` and `debug` to false
   * (cast to bool when set), for the requested locale.
   */
  method IndexAction(controller: Controller, locale: string,
                     translator: (seq<string>, string) -> seq<(string, Messages)>)
    returns (json: TranslationJson)
    ensures var domains := EffectiveDomains(controller.options);
            IsTranslationJson(json, domains, locale, EffectiveDebug(controller.options), translator(domains, locale))
  {
    var domains := EffectiveDomains(controller.options);
    var debug := EffectiveDebug(controller.options);
    json := RenderJsTranslationContent(domains, locale, debug, translator);
  }
}

/** The storage keys of sticky bindings: no two bindings share one. */
module StickyKeys {
  import opened Text

  /** What a user can be bound by: a normalized model name, a response id, or the calls of a model's functions. */
  datatype Binding = Sticky(user: int, model: string) | Response(user: int, response: string)
    | Context(user: int, model: string)

  function NormalizedModelKey(model: string): string
  {
    var trimmed := TrimSpace(ToLower(model));
    if trimmed == "" then "unknown" else trimmed
  }

  function Field(user: int, rest: string): string
  {
    Decimal(user) + ":" + rest
  }

  function StorageKey(b: Binding): string
  {
    match b
    case Sticky(user, model) => "sticky_session:user:" + Field(user, "model:" + model)
    case Response(user, response) => "response_channel:user:" + Field(user, "response:" + response)
    case Context(user, model) => "function_context:user:" + Field(user, "model:" + model + ":history")
  }

  lemma SameRest(prefix: string, x: string, y: string)
    requires prefix + x == prefix + y
    ensures x == y
  {
    assert (prefix + x)[|prefix|..] == x && (prefix + y)[|prefix|..] == y;
  }

  lemma SameStart(x: string, y: string, suffix: string)
    requires x + suffix == y + suffix
    ensures x == y
  {
    assert (x + suffix)[..|x|] == x && (y + suffix)[..|y|] == y;
  }

  lemma FieldInjective(user: int, rest: string, user': int, rest': string)
    requires Field(user, rest) == Field(user', rest')
    ensures user == user' && rest == rest'
  {
    FirstFieldUnique(Decimal(user), Decimal(user'), ':', rest, rest');
    DecimalInjective(user, user');
  }

  /** The three kinds of key begin differently. */
  lemma KindsDiffer(b: Binding)
    ensures StorageKey(b) != ""
    ensures StorageKey(b)[0] == if b.Sticky? then 's' else if b.Response? then 'r' else 'f'
  {
  }

  /** Different bindings have different keys, though model names and response ids may hold any character. */
  lemma StorageKeyInjective(b: Binding, b': Binding)
    requires StorageKey(b) == StorageKey(b')
    ensures b == b'
  {
    KindsDiffer(b);
    KindsDiffer(b');
    match b {
      case Sticky(user, model) =>
        SameRest("sticky_session:user:", Field(user, "model:" + model), Field(b'.user, "model:" + b'.model));
        FieldInjective(user, "model:" + model, b'.user, "model:" + b'.model);
        SameRest("model:", model, b'.model);
      case Response(user, response) =>
        SameRest("response_channel:user:", Field(user, "response:" + response),
                 Field(b'.user, "response:" + b'.response));
        FieldInjective(user, "response:" + response, b'.user, "response:" + b'.response);
        SameRest("response:", response, b'.response);
      case Context(user, model) =>
        SameRest("function_context:user:", Field(user, "model:" + model + ":history"),
                 Field(b'.user, "model:" + b'.model + ":history"));
        FieldInjective(user, "model:" + model + ":history", b'.user, "model:" + b'.model + ":history");
        SameStart("model:" + model, "model:" + b'.model, ":history");
        SameRest("model:", model, b'.model);
    }
  }

  // ----- normalized model names -----

  lemma LowerTrimmed(s: string)
    ensures ToLower(TrimSpace(ToLower(s))) == TrimSpace(ToLower(s))
  {
    var lowered := ToLower(s);
    TrimKeepsChars(lowered);
    forall c | c in TrimSpace(lowered) ensures LowerChar(c) == c {
      var i :| 0 <= i < |lowered| && lowered[i] == c;
      assert lowered[i] == LowerChar(s[i]);
    }
    LowerIsFixed(TrimSpace(lowered));
  }

  lemma FallbackIsNormalized()
    ensures NormalizedModelKey("unknown") == "unknown"
  {
    LowerIsFixed("unknown");
    TrimSpaceTrims("unknown");
  }

  /** Two names share a binding exactly when they differ in nothing but case and surrounding white space, or when each
      of them is blank or the fallback name. */
  lemma SameModelKeyIff(a: string, b: string)
    ensures NormalizedModelKey(a) == NormalizedModelKey(b) <==>
              || TrimSpace(ToLower(a)) == TrimSpace(ToLower(b))
              || {TrimSpace(ToLower(a)), TrimSpace(ToLower(b))} <= {"", "unknown"}
  {
    var x, y := TrimSpace(ToLower(a)), TrimSpace(ToLower(b));
    assert x in {x, y} && y in {x, y};
  }

  /** Names that differ in case or in surrounding white space share a binding. */
  lemma NormalizedTwice(model: string)
    ensures NormalizedModelKey(NormalizedModelKey(model)) == NormalizedModelKey(model)
  {
    var trimmed := TrimSpace(ToLower(model));
    if trimmed == "" {
      FallbackIsNormalized();
    } else {
      LowerTrimmed(model);
      TrimSpaceTrims(ToLower(model));
      TrimSpaceTrims(trimmed);
    }
  }
}

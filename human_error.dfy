/** The client's `humanizeError(err, fallback)`: turns whatever a failed
    request threw into a Russian message for the user. A string is shown as
    is when it already contains Cyrillic, else translated; an error object
    is read through `data.statusCode ?? statusCode` (401 and 403 have fixed
    messages) and `data.statusMessage || message || data.statusCode`. */
module HumanError {
  import opened Wrappers

  /** The JavaScript values an error can be made of. */
  datatype JsValue =
    | Undefined
    | Null
    | Bool(b: bool)
    | Number(n: real)
    | Str(s: string)
    | Object(fields: map<string, JsValue>)

  /** `v?.[key]` on a plain value: a missing property, or a property of a
      non-object, is `undefined`. */
  function Get(v: JsValue, key: string): (r: JsValue)
    ensures !v.Object? ==> r == Undefined
    ensures v.Object? && key in v.fields ==> r == v.fields[key]
  {
    if v.Object? && key in v.fields then v.fields[key] else Undefined
  }

  predicate Falsy(v: JsValue) {
    v == Undefined || v == Null || v == Bool(false) || v == Number(0.0) || v == Str("")
  }

  predicate Nullish(v: JsValue) {
    v == Undefined || v == Null
  }

  /** `a || b`: the first operand when it is truthy, else the second; the
      result is falsy only when both operands are. */
  function Or(a: JsValue, b: JsValue): (r: JsValue)
    ensures !Falsy(a) ==> r == a
    ensures Falsy(a) ==> r == b
    ensures Falsy(r) <==> Falsy(a) && Falsy(b)
  {
    if Falsy(a) then b else a
  }

  /** `a ?? b`: the first operand unless it is `null` or `undefined`; unlike
      `||` it keeps a falsy `0`, `false` or `""`. */
  function Coalesce(a: JsValue, b: JsValue): (r: JsValue)
    ensures !Nullish(a) ==> r == a
    ensures Nullish(a) ==> r == b
    ensures Nullish(r) <==> Nullish(a) && Nullish(b)
  {
    if Nullish(a) then b else a
  }

  /** The character class `[А-Яа-яЁё]`. */
  predicate IsCyrillic(c: char) {
    ('А' <= c <= 'я') || c == 'Ё' || c == 'ё'
  }

  /** `hasCyrillic(value)`. */
  function HasCyrillic(s: string): (r: bool)
    ensures r <==> exists i :: 0 <= i < |s| && IsCyrillic(s[i])
  {
    if |s| == 0 then false
    else if IsCyrillic(s[0]) then true
    else
      var r := HasCyrillic(s[1..]);
      assert forall i :: 1 <= i < |s| ==> s[i] == s[1..][i - 1];
      r
  }

  const UnauthorizedText: string := "Сначала войдите в систему."
  const ForbiddenText: string := "Нет доступа к выбранному проекту."

  /** `MESSAGE_MAP`: the server's status messages and their translations. */
  const Messages: map<string, string> := map[
    "Unauthorized" := UnauthorizedText,
    "Forbidden" := ForbiddenText,
    "Invalid credentials" := "Неверный email или пароль.",
    "Email already exists" := "Этот email уже зарегистрирован.",
    "Missing required fields" := "Заполните все поля.",
    "Invalid email" := "Некорректный email.",
    "Password must be at least 8 characters" := "Пароль должен быть не короче 8 символов.",
    "Missing projectId" := "Не указан проект.",
    "Missing id" := "Не хватает данных для запроса.",
    "Task not found" := "Задача не найдена.",
    "Project not found" := "Проект не найден.",
    "User not found" := "Пользователь не найден.",
    "Method Not Allowed" := "Недопустимый метод запроса."
  ]

  /** The value the handler shows for an error. */
  function Humanize(err: JsValue, fallback: string): (r: string)
    ensures err.Str? && HasCyrillic(err.s) ==> r == err.s
    ensures err.Str? && !HasCyrillic(err.s) ==>
      r == (if err.s in Messages then Messages[err.s] else fallback)
  {
    if err.Str? then
      if HasCyrillic(err.s) then err.s
      else if err.s in Messages then Messages[err.s]
      else fallback
    else
      var data := Get(err, "data");
      var message := Or(Or(Get(data, "statusMessage"), Get(err, "message")), Get(data, "statusCode"));
      var status := Coalesce(Get(data, "statusCode"), Get(err, "statusCode"));
      if status == Number(401.0) then UnauthorizedText
      else if status == Number(403.0) then ForbiddenText
      else
        var text := if message.Str? then message.s else "";
        if text != "" && HasCyrillic(text) then text
        else if text != "" && text in Messages then Messages[text]
        else fallback
  }

  /** `r` is the error's own text: the string itself, or the message the
      object carries in `data.statusMessage`, `message` or
      `data.statusCode`. */
  predicate IsShownText(err: JsValue, r: string) {
    err == Str(r)
    || Get(Get(err, "data"), "statusMessage") == Str(r)
    || Get(err, "message") == Str(r)
    || Get(Get(err, "data"), "statusCode") == Str(r)
  }

  /** The status the handler reads: `data.statusCode ?? statusCode`. The
      nested status wins whenever it is present, even when it is 0. */
  function StatusOf(err: JsValue): (r: JsValue)
    ensures !Nullish(Get(Get(err, "data"), "statusCode")) ==> r == Get(Get(err, "data"), "statusCode")
    ensures Nullish(Get(Get(err, "data"), "statusCode")) ==> r == Get(err, "statusCode")
  {
    Coalesce(Get(Get(err, "data"), "statusCode"), Get(err, "statusCode"))
  }

  // ---------------------------------------------------------------------
  // Properties

  /** `r` is the translation of some server message. */
  ghost predicate IsTranslation(r: string) {
    exists k :: k in Messages && Messages[k] == r
  }

  /** What can be shown: the fallback, a translation, or Russian text the
      error itself carries. */
  lemma HumanizeRange(err: JsValue, fallback: string)
    ensures var r := Humanize(err, fallback);
      r == fallback || IsTranslation(r) || (HasCyrillic(r) && IsShownText(err, r))
  {
    var r := Humanize(err, fallback);
    if err.Str? {
      if !HasCyrillic(err.s) && err.s in Messages {
        assert Messages[err.s] == Messages[err.s];
      }
    } else {
      var data := Get(err, "data");
      var m1 := Get(data, "statusMessage");
      var m2 := Get(err, "message");
      var m3 := Get(data, "statusCode");
      var message := Or(Or(m1, m2), m3);
      var status := Coalesce(m3, Get(err, "statusCode"));
      assert message == m1 || message == m2 || message == m3;
      if status == Number(401.0) {
        assert "Unauthorized" in Messages && Messages["Unauthorized"] == UnauthorizedText;
      } else if status == Number(403.0) {
        assert "Forbidden" in Messages && Messages["Forbidden"] == ForbiddenText;
      } else {
        var text := if message.Str? then message.s else "";
        if text != "" && !HasCyrillic(text) && text in Messages {
          assert Messages[text] == Messages[text];
        }
      }
    }
  }

  /** Every translation is Russian text. */
  lemma TranslationIsCyrillic(k: string)
    requires k in Messages
    ensures HasCyrillic(Messages[k])
  {
    assert IsCyrillic(Messages[k][0]);
  }

  /** Humanizing a message that is already shown changes nothing, as long
      as the fallback is Russian too. */
  lemma HumanizeIdempotent(err: JsValue, fallback: string)
    requires HasCyrillic(fallback)
    ensures Humanize(Str(Humanize(err, fallback)), fallback) == Humanize(err, fallback)
  {
    HumanizeRange(err, fallback);
    var r := Humanize(err, fallback);
    if r != fallback && IsTranslation(r) {
      var k :| k in Messages && Messages[k] == r;
      TranslationIsCyrillic(k);
    }
  }

  /** An object whose status is 401 or 403 gets the fixed message,
      whatever its text says; the 403 text is the translation of
      "Forbidden". */
  lemma StatusMessages(err: JsValue, fallback: string)
    requires !err.Str?
    ensures StatusOf(err) == Number(401.0) ==> Humanize(err, fallback) == Messages["Unauthorized"]
    ensures StatusOf(err) == Number(403.0) ==> Humanize(err, fallback) == Messages["Forbidden"]
  {
  }

  /** For an error object whose status is neither 401 nor 403, the text
      shown is the first truthy of `data.statusMessage`, `message` and
      `data.statusCode`, handled as that string alone would be; a first
      truthy value that is not a string, or a non-string
      `data.statusCode` after two falsy values, gives the fallback. */
  lemma ObjectMessagePrecedence(err: JsValue, fallback: string)
    requires !err.Str? && StatusOf(err) != Number(401.0) && StatusOf(err) != Number(403.0)
    ensures var sm := Get(Get(err, "data"), "statusMessage");
      sm.Str? && sm.s != "" ==> Humanize(err, fallback) == Humanize(Str(sm.s), fallback)
    ensures var sm := Get(Get(err, "data"), "statusMessage");
      !Falsy(sm) && !sm.Str? ==> Humanize(err, fallback) == fallback
    ensures var sm, msg := Get(Get(err, "data"), "statusMessage"), Get(err, "message");
      Falsy(sm) && msg.Str? && msg.s != "" ==> Humanize(err, fallback) == Humanize(Str(msg.s), fallback)
    ensures var sm, msg := Get(Get(err, "data"), "statusMessage"), Get(err, "message");
      Falsy(sm) && !Falsy(msg) && !msg.Str? ==> Humanize(err, fallback) == fallback
    ensures var sm, msg, code := Get(Get(err, "data"), "statusMessage"), Get(err, "message"),
                                 Get(Get(err, "data"), "statusCode");
      Falsy(sm) && Falsy(msg) && code.Str? ==> Humanize(err, fallback) == Humanize(Str(code.s), fallback)
    ensures var sm, msg, code := Get(Get(err, "data"), "statusMessage"), Get(err, "message"),
                                 Get(Get(err, "data"), "statusCode");
      Falsy(sm) && Falsy(msg) && !code.Str? ==> Humanize(err, fallback) == fallback
  {
  }

  /** `??` reads the nested status even when it is 0: a top-level 401 is
      then ignored. */
  lemma NestedZeroStatusWins(fallback: string)
    ensures var err := Object(map["statusCode" := Number(401.0), "data" := Object(map["statusCode" := Number(0.0)])]);
      StatusOf(err) == Number(0.0) && Humanize(err, fallback) == fallback
  {
    var err := Object(map["statusCode" := Number(401.0), "data" := Object(map["statusCode" := Number(0.0)])]);
    var data := Object(map["statusCode" := Number(0.0)]);
    assert Get(err, "data") == data;
    assert Get(data, "statusMessage") == Undefined;
    assert Get(err, "message") == Undefined;
  }

  /** `||` skips an empty `data.statusMessage` and reads `message`: the
      error is shown as its message string would be. */
  lemma EmptyStatusMessageFallsThrough(text: string, fallback: string)
    requires text != ""
    ensures var err := Object(map["message" := Str(text), "data" := Object(map["statusMessage" := Str("")])]);
      Humanize(err, fallback) == Humanize(Str(text), fallback)
  {
    var data := Object(map["statusMessage" := Str("")]);
    var err := Object(map["message" := Str(text), "data" := data]);
    assert Get(err, "data") == data;
    assert Get(data, "statusCode") == Undefined && Get(err, "statusCode") == Undefined;
    assert Get(data, "statusMessage") == Str("") && Get(err, "message") == Str(text);
  }

  /** A message that is not a string, such as a numeric status, is not
      shown: the result is the fallback. */
  lemma NumericMessageGivesFallback(code: real, fallback: string)
    requires code != 0.0 && code != 401.0 && code != 403.0
    ensures Humanize(Object(map["data" := Object(map["statusCode" := Number(code)])]), fallback) == fallback
  {
    var data := Object(map["statusCode" := Number(code)]);
    var err := Object(map["data" := data]);
    assert Get(err, "data") == data;
  }

  // ---------------------------------------------------------------------
  // MESSAGE_MAP is a plain object: keys of Object.prototype answer too

  /** The properties every plain object inherits; each is a truthy
      non-string value. */
  const InheritedKeys: set<string> := {
    "constructor", "hasOwnProperty", "isPrototypeOf", "propertyIsEnumerable",
    "toLocaleString", "toString", "valueOf", "__proto__",
    "__defineGetter__", "__defineSetter__", "__lookupGetter__", "__lookupSetter__"
  }

  /** What `humanizeError` can return as written: a string, or the
      inherited member `MESSAGE_MAP[name]`. */
  datatype Shown = Text(text: string) | Inherited(name: string)

  /** `MESSAGE_MAP[key]` as JavaScript evaluates it. */
  function LookupAsWritten(key: string): (r: Option<Shown>)
    ensures key in Messages ==> r == Some(Text(Messages[key]))
    ensures key !in Messages && key in InheritedKeys ==> r == Some(Inherited(key))
    ensures key !in Messages && key !in InheritedKeys ==> r.None?
  {
    if key in Messages then Some(Text(Messages[key]))
    else if key in InheritedKeys then Some(Inherited(key))
    else None
  }

  /** `humanizeError(err, fallback)` as written, with the map read as a
      plain object. */
  function HumanizeAsWritten(err: JsValue, fallback: string): (r: Shown)
    ensures r.Inherited? ==> r.name in InheritedKeys
  {
    if err.Str? then
      if HasCyrillic(err.s) then Text(err.s)
      else
        var found := LookupAsWritten(err.s);
        if found.Some? then found.value else Text(fallback)
    else
      var data := Get(err, "data");
      var message := Or(Or(Get(data, "statusMessage"), Get(err, "message")), Get(data, "statusCode"));
      var status := Coalesce(Get(data, "statusCode"), Get(err, "statusCode"));
      if status == Number(401.0) then Text(UnauthorizedText)
      else if status == Number(403.0) then Text(ForbiddenText)
      else
        var text := if message.Str? then message.s else "";
        if text != "" && HasCyrillic(text) then Text(text)
        else if text != "" && LookupAsWritten(text).Some? then LookupAsWritten(text).value
        else Text(fallback)
  }

  /** The string "toString" is shown as a function, not as the fallback. */
  lemma InheritedKeyLeaks(fallback: string)
    ensures HumanizeAsWritten(Str("toString"), fallback) == Inherited("toString")
    ensures Humanize(Str("toString"), fallback) == fallback
  {
    assert !HasCyrillic("toString");
    assert "toString" !in Messages;
  }

  /** Away from the inherited names, the written lookup is the own-key
      lookup: `Humanize` is what the handler returns. */
  lemma AsWrittenAgrees(err: JsValue, fallback: string)
    requires err.Str? ==> err.s !in InheritedKeys
    requires !err.Str? ==> forall k :: k in InheritedKeys ==> !IsShownText(err, k)
    ensures HumanizeAsWritten(err, fallback) == Text(Humanize(err, fallback))
  {
  }
}

/** The plain text of a fetched document, by its content type. */
module ContentText {
  import opened Wrappers
  import opened Texts
  import opened Whitespace
  import opened HtmlBlocks
  import opened JsonText

  datatype TextError = InvalidJson | JsonRejected(reason: JsonError)

  /** The content type without its parameters. */
  function BaseType(u: Unicode, contentType: string): string {
    Trim(Split(contentType, ';')[0], u.isSpace)
  }

  predicate IsJson(base: string) {
    base == "application/json" || base == "application/feed+json" || EndsWith(base, "+json")
  }

  predicate IsHtml(base: string) {
    base == "text/html" || base == "application/xhtml+xml"
  }

  /** What is read from the body, before entities are decoded. */
  function RawText(base: string, body: string, parsed: Option<Json>): string {
    if IsJson(base) then
      if parsed.Some? then Join(Fragments(parsed.value), " ") else ""
    else if IsHtml(base) then Visible(RemoveTags(body, TAGS))
    else if base == "text/plain" then body
    else Visible(body)
  }

  /** The base type is what stands before the parameters, without the blanks around it. */
  lemma BaseTypeIsInFront(u: Unicode, before: string, base: string, after: string, parameters: string)
    requires base != "" && ';' !in before + base + after
    requires !u.isSpace(base[0]) && !u.isSpace(base[|base| - 1])
    requires forall c :: c in before + after ==> u.isSpace(c)
    ensures BaseType(u, before + (base + after)) == base
    ensures BaseType(u, before + (base + after) + ";" + parameters) == base
  {
    var all := before + (base + after);
    OnePart(all, ';');
    SplitConcat(all, parameters, ';');
    TrimBoth(before, base, after, u.isSpace);
  }

  /** JSON is read as its fragments, plain text as it is, and anything else loses its markup, of
      HTML first the ignored blocks. */
  lemma RawTextByType(base: string, body: string, parsed: Option<Json>)
    ensures base == "application/json" || base == "application/feed+json"
            || (|base| >= 5 && base[|base| - 5..] == "+json") ==>
      IsJson(base) && (parsed.Some? ==> RawText(base, body, parsed) == Join(Fragments(parsed.value), " "))
    ensures base == "text/html" || base == "application/xhtml+xml" ==>
      RawText(base, body, parsed) == Visible(RemoveTags(body, TAGS))
    ensures base == "text/plain" ==> RawText(base, body, parsed) == body
    ensures !(base == "application/json" || base == "application/feed+json" || base == "text/html"
              || (|base| >= 5 && base[|base| - 5..] == "+json")
              || base == "application/xhtml+xml" || base == "text/plain") ==>
      !IsJson(base) && RawText(base, body, parsed) == Visible(body)
  {
  }

  method ReadBody(base: string, body: string, parsed: Option<Json>) returns (r: Result<string, TextError>)
    ensures r.Ok? <==> IsJson(base) ==> parsed.Some? && Fits(parsed.value, 0, 0)
    ensures r.Ok? ==> r.value == RawText(base, body, parsed)
    ensures r == Err(InvalidJson) <==> IsJson(base) && parsed.None?
  {
    if IsJson(base) {
      if parsed.None? {
        return Err(InvalidJson);
      }
      var fragments := CollectJsonText(parsed.value, 0, []);
      if fragments.Err? {
        return Err(JsonRejected(fragments.error));
      }
      assert [] + Fragments(parsed.value) == Fragments(parsed.value);
      r := Ok(Join(fragments.value, " "));
    } else if IsHtml(base) {
      var kept := RemoveIgnoredHtmlBlocks(body);
      var visible := StripMarkup(kept);
      r := Ok(visible);
    } else if base == "text/plain" {
      r := Ok(body);
    } else {
      var visible := StripMarkup(body);
      r := Ok(visible);
    }
  }

  /** `body` is the decoded response and `parsed` what the JSON parser makes of it. The result
      is always in whitespace normal form. */
  method ExtractText(u: Unicode, decode: string -> string, contentType: string, body: string, parsed: Option<Json>)
    returns (r: Result<string, TextError>)
    ensures var base := BaseType(u, contentType);
      && (r.Ok? <==> IsJson(base) ==> parsed.Some? && Fits(parsed.value, 0, 0))
      && (r.Ok? ==> r.value == Normal(u, decode(RawText(base, body, parsed))))
      && (r == Err(InvalidJson) <==> IsJson(base) && parsed.None?)
    ensures r.Ok? && u.isSpace(' ') ==> Normal(u, r.value) == r.value
  {
    r := ReadBody(BaseType(u, contentType), body, parsed);
    if r.Ok? {
      var text := decode(r.value);
      if u.isSpace(' ') {
        NormalIdempotent(u, text);
      }
      var output := CollapseWhitespace(u, text);
      r := Ok(output);
    }
  }
}

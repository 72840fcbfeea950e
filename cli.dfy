/**
 * `validate_args` and `args_to_params` (main.py): check the parsed command-line
 * arguments and turn them into the parameter dictionary of `process_request`.
 */
module Cli {
  import opened Wrappers
  import opened Tool

  /** The parsed arguments these two functions read. `--search`, `--docs` and `--examples`
      form a mutually exclusive group of the parser. */
  datatype Args = Args(search: Option<string>, docs: Option<string>, examples: bool, jsonInput: Option<string>,
                       limit: int, snippetLen: int, contentLen: int, noContent: bool)

  const NoMode := "Must specify --search, --docs, or provide JSON input"
  const DocsLimit := "Docs mode limit cannot exceed 10"
  const LimitTooSmall := "Limit must be at least 1"
  const SnippetTooSmall := "Snippet length must be at least 1"
  const ContentTooSmall := "Content length must be at least 1"
  const NoValidMode := "No valid mode specified"

  /** `validate_args(args)`: the first message that applies, or `None`. */
  function ValidateArgs(a: Args): Option<string> {
    if a.examples then None
    else if !Truthy(a.search) && !Truthy(a.docs) && !Truthy(a.jsonInput) then Some(NoMode)
    else if Truthy(a.docs) && a.limit > 10 then Some(DocsLimit)
    else if a.limit < 1 then Some(LimitTooSmall)
    else if a.snippetLen < 1 then Some(SnippetTooSmall)
    else if a.contentLen < 1 then Some(ContentTooSmall)
    else None
  }

  /** Some input was named: a query, a docs URL or a JSON string. */
  predicate HasInput(a: Args) {
    Truthy(a.search) || Truthy(a.docs) || Truthy(a.jsonInput)
  }

  /**
   * With `--examples` nothing is checked. Otherwise each message is returned exactly when
   * every earlier check passed and its own failed, in the order: some input, the docs limit
   * of 10, the limit, the snippet length, the content length; and no message means every
   * check passed.
   */
  lemma ValidateArgsAccepts(a: Args)
    ensures a.examples ==> ValidateArgs(a) == None
    ensures !a.examples ==>
      && (ValidateArgs(a) == Some(NoMode) <==> !HasInput(a))
      && (ValidateArgs(a) == Some(DocsLimit) <==> HasInput(a) && Truthy(a.docs) && a.limit > 10)
      && (ValidateArgs(a) == Some(LimitTooSmall) <==>
            HasInput(a) && !(Truthy(a.docs) && a.limit > 10) && a.limit < 1)
      && (ValidateArgs(a) == Some(SnippetTooSmall) <==>
            HasInput(a) && !(Truthy(a.docs) && a.limit > 10) && a.limit >= 1 && a.snippetLen < 1)
      && (ValidateArgs(a) == Some(ContentTooSmall) <==>
            HasInput(a) && !(Truthy(a.docs) && a.limit > 10) && a.limit >= 1 && a.snippetLen >= 1 && a.contentLen < 1)
      && (ValidateArgs(a) == None <==>
            HasInput(a) && (Truthy(a.docs) ==> a.limit <= 10) && a.limit >= 1 && a.snippetLen >= 1 && a.contentLen >= 1)
  {
  }

  /** `args_to_params(args)`: search when `--search` is given, else docs when `--docs` is given. */
  function ArgsToParams(a: Args): Result<Params, Error> {
    if Truthy(a.search) then
      Success(Params(Given("search"), Given(a.search.value), Absent, Given(a.limit), Given(a.snippetLen),
                     Given(a.contentLen), Absent, Absent))
    else if Truthy(a.docs) then
      Success(Params(Given("docs"), Absent, Given(a.docs.value), Given(if a.limit < 10 then a.limit else 10),
                     Absent, Absent, Given(!a.noContent), Given(a.contentLen)))
    else Failure(ValueError(NoValidMode))
  }

  /**
   * Accepted arguments with a search query or a docs URL always give parameters that
   * `process_request` resolves without an exception: the search request carries the query and
   * the three numbers from the command line; the docs request carries the URL, the limit,
   * content unless `--no-content`, and the content length as the content limit. Without a
   * query or URL there are no parameters.
   */
  lemma ArgsResolve(a: Args)
    ensures ArgsToParams(a).Failure? <==> !Truthy(a.search) && !Truthy(a.docs)
    ensures ValidateArgs(a).None? && !a.examples && Truthy(a.search) ==>
      ArgsToParams(a).Success?
      && ResolveRequest(ArgsToParams(a).value)
         == Success(SearchRequest(a.search.value, a.limit, a.snippetLen, Some(a.contentLen)))
      && a.limit >= 1 && a.snippetLen >= 1 && a.contentLen >= 1
    ensures ValidateArgs(a).None? && !a.examples && !Truthy(a.search) && Truthy(a.docs) ==>
      ArgsToParams(a).Success?
      && ResolveRequest(ArgsToParams(a).value)
         == Success(DocsRequest(a.docs.value, a.limit, !a.noContent, Some(a.contentLen)))
      && 1 <= a.limit <= 10
  {
  }

  /** The docs limit passed on is `min(limit, 10)`: the limit itself up to 10, and 10 above that, even without validation. */
  lemma DocsLimitCapped(a: Args)
    requires !Truthy(a.search) && Truthy(a.docs)
    ensures ArgsToParams(a).Success? && ArgsToParams(a).value.limit.Given?
    ensures ArgsToParams(a).value.limit.value <= 10
    ensures a.limit <= 10 ==> ArgsToParams(a).value.limit.value == a.limit
    ensures a.limit > 10 ==> ArgsToParams(a).value.limit.value == 10
  {
  }
}

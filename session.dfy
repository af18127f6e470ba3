/** The interactive session around the analyzer: choosing a repository from the
    saved history by number, and adding a new locator to that history. */
module Session {
  import opened Wrappers

  /** No locator occurs twice. */
  predicate NoDuplicates(repos: seq<string>) {
    forall i, j :: 0 <= i < j < |repos| ==> repos[i] != repos[j]
  }

  /** The history after a run: a locator not yet saved is appended, one already
      saved leaves the history as it was. */
  function Remember(repos: seq<string>, url: string): (r: seq<string>)
    ensures url in r
    ensures repos <= r && |r| <= |repos| + 1
    ensures forall u :: u in r <==> u in repos || u == url
    ensures NoDuplicates(repos) ==> NoDuplicates(r)
  {
    if url in repos then repos else repos + [url]
  }

  /** Remembering the same locator again changes nothing. */
  lemma RememberIdempotent(repos: seq<string>, url: string)
    ensures Remember(Remember(repos, url), url) == Remember(repos, url)
  {
  }

  /** The history grows exactly when the locator is new, and then by that
      locator at the end. */
  lemma RememberGrows(repos: seq<string>, url: string)
    ensures |Remember(repos, url)| == |repos| + 1 <==> url !in repos
    ensures url !in repos ==> Remember(repos, url)[|repos|] == url
  {
  }

  /** The outcome of the menu: a locator to analyze, a number that names no
      entry, or an empty locator. */
  datatype Selection = Chosen(url: string) | InvalidNumber | NotEntered

  /** The menu of `main`. `repos` is the saved history, `choice` the stripped
      answer to the numbered menu, `number` what `int(choice)` yields (`None`
      when it raises `ValueError`), and `entered` the stripped answer to the
      prompt for a new locator. With an empty history only that prompt is
      shown. */
  function Select(repos: seq<string>, choice: string, number: Option<int>, entered: string): (s: Selection)
    ensures s == InvalidNumber <==> repos != [] && number.Some? && !(0 <= number.value <= |repos|)
    ensures s.Chosen? ==> s.url != [] && (s.url in repos || s.url == choice || s.url == entered)
  {
    var picked :=
      if repos == [] then Some(entered)
      else match number
        case None => Some(choice)
        case Some(n) =>
          if n == 0 then Some(entered)
          else if 1 <= n <= |repos| then Some(repos[n - 1])
          else None;
    match picked
    case None => InvalidNumber
    case Some(url) => if url == [] then NotEntered else Chosen(url)
  }

  /** The menu lists the history numbered from 1, in order. */
  function Numbered(repos: seq<string>): (menu: seq<(int, string)>)
    ensures |menu| == |repos|
    ensures forall i :: 0 <= i < |repos| ==> menu[i] == (i + 1, repos[i])
  {
    if repos == [] then [] else Numbered(repos[..|repos| - 1]) + [(|repos|, repos[|repos| - 1])]
  }

  /** Answering with the number shown next to a saved locator chooses that
      locator, and answering 0 leads to the prompt for a new one. */
  lemma SelectNumbered(repos: seq<string>, entered: string, i: nat)
    requires i < |repos| && repos[i] != []
    ensures var (n, url) := Numbered(repos)[i];
            forall choice :: Select(repos, choice, Some(n), entered) == Chosen(url)
    ensures repos != [] && entered != [] ==> forall choice :: Select(repos, choice, Some(0), entered) == Chosen(entered)
  {
  }

  /** An answer that is not a number is taken as the locator itself, so an
      empty answer means no locator was entered. */
  lemma SelectText(repos: seq<string>, choice: string, entered: string)
    requires repos != []
    ensures Select(repos, choice, None, entered) == if choice == [] then NotEntered else Chosen(choice)
  {
  }
}

# busqueda_mtg in Dafny

A model of the Magic: The Gathering price scrapers of the busqueda_mtg
repository, and proofs about that model.

The centre of the model is the ordered page reassembler of the BloodMoon
Games scraper (`scrapear_desde`). A window of six pages is in flight at once,
and pages may complete in any order. A single writer releases them strictly in
page order. It counts the trailing empty pages and stops after five of them.
It flushes the pending products every 10 pages and once more at the end. The
reassembler is the class `Reassembler.Scraper`. Its methods are proved
against the release rule of module `Release`, which is a function of the
contents of the pages released so far. The bounded retry of
`obtener_productos_pagina` is `Bloodmoon.FetchPage`. It is given the
outcome of every attempt in advance.

Around the reassembler, the model covers the logic the other scripts repeat:
- the price parsers and the CLP thousands format, with their round trips;
- the name cleaners and foil tests;
- the skip rules of each product loop;
- the bounded retries and the page loops that stop at the first empty page;
- the CSV merger (`Unificador`) and the "Tengo" column of the collection
  marker (`IHaveIt`);
- the best-offer choice and batching of the card finder (`BuscadorCartas`);
- the Inekosingles batch checker and the Hunter catalogue checker;
- the two Scryfall tools;
- the candidate choice of the five store search adapters under `tiendas/`.

HTML, JSON and the network are not modelled. A page is given as the records
the script would extract from it: titles, price texts, stock flags and
variant titles. A request is given as an oracle that returns an answer, or
the failure the script meets: caught and retried where the script has a
`try`, and a crash of the run where it has none. An exception that escapes a
function is an `Err` value.

Most scripts have one module of their own, named after the store or the script. The exceptions:
- List_Bloodmoongames_single.py is split across three modules. `Bloodmoon` holds the parsing and the fetch retry. `Reassembler` holds the window of pages in flight and the in-order writer. `Release` holds the release rule that writer follows.
- `Oasis` covers three scripts: List_Oasis.py, List_Oasis_Single.py and PendienteList_Oasis_Single.py.
- `PiedraBruja` covers List_PiedraBruja.py and List_PiedraBruja_Single.py. The second is a copy of the first that differs only in how its non-ASCII string literals are encoded, so the rows cite the first.

Some modules hold pieces that several scripts repeat: `Retry`, `Listing`, `Paging`, `Prompt` and `Offers`. `Text` and `Patterns` write out, character
by character, the `str` methods and regular expressions the scripts rely on.
Loops stay loops: each is a method proved against the function that
specifies it.

## Model

| member | source | states |
|---|---|---|
| `Bloodmoon.StartPage` | List_Bloodmoongames_single.py:114-125 | the start page is always at least 1: page 1 with no reply, with a blank reply, with a reply `int` refuses or with a value below 1, and otherwise the integer typed |
| `Bloodmoon.StartPageBlank` | List_Bloodmoongames_single.py:114-116 | a reply that is only whitespace starts at page 1 |
| `Bloodmoon.LowestPrice` | List_Bloodmoongames_single.py:131-152 | the price is `None` exactly when no group of digits, dots and commas reads as a number once its dots and commas are deleted; otherwise it is the value of one such group and no greater than any other |
| `Bloodmoon.GroupValues` | List_Bloodmoongames_single.py:141-149 | the values collected are exactly those of the groups that read as numbers |
| `Bloodmoon.ExtractPrice` | List_Bloodmoongames_single.py:136-152 | the loop over the groups followed by `min` computes `LowestPrice` |
| `Bloodmoon.GroupValueGrouped` | List_Bloodmoongames_single.py:143-147 | a number written with "." or "," thousands separators is read back as that number |
| `Bloodmoon.LowestPriceGrouped` | List_Bloodmoongames_single.py:131-152 | "$" followed by a grouped number is read back as that number |
| `Bloodmoon.LowestPriceSingle` | List_Bloodmoongames_single.py:133-134 | the documented example "$9.000" gives 9000 |
| `Bloodmoon.LowestPriceOfRange` | List_Bloodmoongames_single.py:131-152 | a range "$lo – $hi" gives the smaller of its two ends |
| `Bloodmoon.LowestPriceRange` | List_Bloodmoongames_single.py:133-134 | the documented example, the text "$4.000 – $12.000", gives 4000 |
| `Bloodmoon.CleanNameCutsDash` | List_Bloodmoongames_single.py:164-165 | everything from the first en dash on is dropped: the name of `a + "–" + b` is the name of `a`, for any `a` without "(" or "–" |
| `Bloodmoon.CleanNameCutsHyphen` | List_Bloodmoongames_single.py:164-165 | for any text `a` without "(", "-" or "–", the name of `a + "-" + b` is the name of `a`, whatever `b` is: the text is cut at its first hyphen |
| `Bloodmoon.CleanNameDropsGroup` | List_Bloodmoongames_single.py:164 | a parenthesised group with the blank before it is dropped wherever it stands, and the text around it makes the name |
| `Bloodmoon.CleanNameKeepsClean` | List_Bloodmoongames_single.py:164-168 | a name already clean (ASCII, single blanks, no group, hyphen or en dash) comes out unchanged |
| `Bloodmoon.CleanNameBlank` | List_Bloodmoongames_single.py:165 | a blank after the text does not change the name, since the cut text is stripped |
| `Bloodmoon.CleanNameTitle` | List_Bloodmoongames_single.py:158-169 | a clean name followed by " – " and any subtitle gives exactly that name |
| `Bloodmoon.CleanNameSpec` | List_Bloodmoongames_single.py:158-169 | foil exactly when "foil" occurs as a whole word in any case; the name has no complete parenthesised group, no hyphen and no en dash, only ASCII characters and single blanks between words, none at the ends |
| `Bloodmoon.ParsePageAll` | List_Bloodmoongames_single.py:198-218 | when every item has a product link and a title, the page gives one row per item, in order, each built from its item |
| `Bloodmoon.ParseListing` | List_Bloodmoongames_single.py:198-219 | the parse loop computes `ParsePage`: items without a link or a title are skipped and order is kept |
| `Bloodmoon.PageResultSpec` | List_Bloodmoongames_single.py:185-239 | a page is returned exactly when, within the 30-request budget, a fetch succeeds after network errors only; it is then the parse of that response; otherwise the page is omitted |
| `Bloodmoon.FetchPage` | List_Bloodmoongames_single.py:175-239 | the two nested loops return `PageResult`; they make at most `RetryCycle * MaxCycles` requests, every request before the last failed with a network error, a returned page comes from the last request, and an omission before the budget is spent comes from an unexpected error |
| `Release.StreakIsTrailingEmpty` | List_Bloodmoongames_single.py:342-349 | the empty-streak counter equals the number of empty pages at the end of the released pages, so a page with items resets it |
| `Release.StopsOnStreak` | List_Bloodmoongames_single.py:363-370 | the run stops exactly on the page that completes a streak of 5 empty pages |
| `Release.CadenceWhileRunning` | List_Bloodmoongames_single.py:349-358 | while the run goes on, the batches written are the non-empty blocks of 10 released pages completed so far, and the pending items are those of the pages after the last complete block |
| `Release.CadenceAtStop` | List_Bloodmoongames_single.py:363-368 | at the stop, the batches are the non-empty complete blocks, then one last batch with the items left over, if there are any |
| `Release.FlushedNonEmpty` | List_Bloodmoongames_single.py:353-358 | no empty batch is ever appended to the CSV file |
| `Release.Conservation` | List_Bloodmoongames_single.py:342-370 | the batches written followed by the pending items are all items of the released pages in page order; at the stop the batches alone are |
| `Release.LiveWhileItems` | List_Bloodmoongames_single.py:345-349 | pages with items never end the run |
| `Release.LiveThroughEmpties` | List_Bloodmoongames_single.py:345-370 | after pages with items, up to 5 empty pages keep the run going until the fifth, which stops it |
| `Release.EndOfListing` | List_Bloodmoongames_single.py:342-370 | a listing of pages with items followed by 5 empty pages stops on the last empty page, having written every item in order |
| `Reassembler.Highest` | List_Bloodmoongames_single.py:335-337 | the highest scheduled page is one of the scheduled pages and no smaller than any of them |
| `Reassembler.Scraper.constructor` | List_Bloodmoongames_single.py:284-291 | pages `start` to `start + 5` are in flight, nothing is buffered or written, and the next page to write is the start page |
| `Reassembler.Scraper.WindowFull` | List_Bloodmoongames_single.py:331-340 | exactly 6 pages are always in flight, among them the page the writer waits for, so `while futures` never ends and lines 376-382 are unreachable |
| `Reassembler.Scraper.Written` | List_Bloodmoongames_single.py:342-372 | whatever order pages complete in, the batches written and then the pending items are the items of the released pages in page order |
| `Reassembler.Scraper.Stop` | List_Bloodmoongames_single.py:342-370 | the streak counter is the number of trailing empty released pages, and the run has ended exactly when there are 5 of them |
| `Reassembler.Scraper.Complete` | List_Bloodmoongames_single.py:297-372 | one completion removes its page from the window, buffers it (an omitted page as empty), submits the first page never submitted, releases the pages now in order, and keeps every invariant; written batches are only ever appended to |
| `Reassembler.Scraper.ReleaseReady` | List_Bloodmoongames_single.py:342-372 | releases buffered pages in page order until the next one is missing or the run stops |
| `Reassembler.Scraper.ReleaseNext` | List_Bloodmoongames_single.py:343-372 | releases the next page through the release rule and moves the cursor on unless the run stopped |
| `Reassembler.Receive` | List_Bloodmoongames_single.py:307-340 | the completed page leaves the window with its content buffered, and the page submitted in its place is the first page never submitted |
| `Reassembler.HighestScheduled` | List_Bloodmoongames_single.py:335-337 | `max(scheduled) + 1` is always the first page never submitted, so no page is submitted twice |
| `Reassembler.Pop` | List_Bloodmoongames_single.py:342-343 | takes the next page to write out of the buffer; its content is that page's result |
| `Reassembler.Advance` | List_Bloodmoongames_single.py:344-372 | the writer's step keeps its state equal to the release rule applied to every released page in order |
| `Reassembler.WriterStep` | List_Bloodmoongames_single.py:344-370 | one released page updates the streak, the checkpoint every 10 pages and the final flush as `ReleasePage` says |
| `Reassembler.ReleaseStep` | List_Bloodmoongames_single.py:342-372 | releasing one more page applies the release rule to its content |
| `Reassembler.OpenWindow` | List_Bloodmoongames_single.py:287-288 | the initial submissions are the 6 pages from the start page |
| `Reassembler.Scrape` | List_Bloodmoongames_single.py:262-382 | the whole run over any order of completions keeps the invariants, and when it stops the batches written are all items of the released pages in order |
| `Retry.FirstSuccessSpec` | List_Oasis_Single.py:74-89 | the outcome of the retry loop is `None` exactly when every attempt in the budget failed, and otherwise the result of the first attempt that succeeded, all earlier ones having failed |
| `Retry.FetchWithRetries` | List_Oasis_Single.py:74-89 | the `while ... else` loop returns `FirstSuccess`; it makes at most `REINTENTOS` requests, all failed but the last, a page comes from the last request, and an omitted page took the whole budget |
| `Reassembler.OpeningWindow` | List_Bloodmoongames_single.py:285-291 | the first window holds exactly the `MaxWorkers` pages from the start page on, all in flight, nothing completed or released |
| `Reassembler.OpeningWriter` | List_Bloodmoongames_single.py:276-291 | before any page is released, the writer is running with an empty streak, nothing pending and nothing flushed |
| `Reassembler.SubmitWindow` | List_Bloodmoongames_single.py:312-340 | a completed page moves from the in-flight set to the buffer with its contents, and submitting the next unscheduled page keeps `MaxWorkers` pages in flight and every page from the release cursor on scheduled exactly once |
| `Hunter.FirstDecisive` | List_Huntercardtcg_Single.py:16-23 | the index of the first reply that is "s", "n" or the end of input, every earlier reply being invalid |
| `Hunter.AskYesNo` | List_Huntercardtcg_Single.py:14-23 | the loop gives `YesNo` of the replies, having asked once per reply up to and including the first deciding one |
| `Hunter.FirstDecisiveIs` | List_Huntercardtcg_Single.py:16-23 | a reply is the first deciding one exactly when it decides and none before it does |
| `Hunter.YesNoTrue` | List_Huntercardtcg_Single.py:16-22 | the answer is yes if and only if the first deciding reply is "s" once stripped and lower-cased |
| `Hunter.YesNoFalse` | List_Huntercardtcg_Single.py:16-22 | the answer is no if and only if input ends, or the first deciding reply is "n", before any "s" |
| `Hunter.FormatCLPShape` | List_Huntercardtcg_Single.py:25-29 | no price gives the empty text; a price gives "$" and its digits in groups of three separated by ".", which read back as the price |
| `Hunter.FormatCLPExample` | List_Huntercardtcg_Single.py:25-29 | 12000 is written "$12.000" |
| `Hunter.LowestRun` | List_Huntercardtcg_Single.py:58-78 | no price exactly when the text has no digit; otherwise the value of one match of `\d[\d\.]*` with its dots removed, no greater than any other |
| `Hunter.RunValuesIn` | List_Huntercardtcg_Single.py:67-72 | the list built holds exactly the values of the matches; `int` never refuses one |
| `Hunter.ExtractPrice` | List_Huntercardtcg_Single.py:58-78 | the loop followed by `min` computes `LowestRun` |
| `Hunter.PriceRoundTrip` | List_Huntercardtcg_Single.py:25-78 | the price column written by `formatear_moneda_clp` reads back as the price it came from |
| `Hunter.LowestOfRange` | List_Huntercardtcg_Single.py:77-78 | a range "$lo – $hi" reads as its lower end |
| `Hunter.FirstDashSep` | List_Huntercardtcg_Single.py:49 | the leftmost place at or after `i` where whitespace, a dash and whitespace begin |
| `Hunter.CutAtDashClean` | List_Huntercardtcg_Single.py:49 | the part before the first separator holds no separator |
| `Hunter.CutAtDashNone` | List_Huntercardtcg_Single.py:49 | a title without separator is not cut |
| `Hunter.CutAndStripSpec` | List_Huntercardtcg_Single.py:49-52 | cutting and stripping keeps the text free of groups and leaves no separator and no outer whitespace |
| `Hunter.StripKeepsNoDash` | List_Huntercardtcg_Single.py:52 | stripping does not create a separator |
| `Hunter.CleanNameSpec` | List_Huntercardtcg_Single.py:31-56 | an empty title gives ("", false); otherwise foil exactly when "foil" is a whole word in any case, and the name has no parenthesised group, no whitespace-surrounded dash and no outer whitespace |
| `Hunter.CleanNameCut` | List_Huntercardtcg_Single.py:46-52 | the name is the stripped text before the first separator once the groups are removed |
| `Hunter.CleanNameKeepsHyphens` | List_Huntercardtcg_Single.py:48-52 | hyphens not surrounded by whitespace are kept |
| `Hunter.KeepSafe` | List_Huntercardtcg_Single.py:147 | only letters, digits, blanks, "_" and "-" are kept |
| `Hunter.ImageStemChars` | List_Huntercardtcg_Single.py:147-148 | the file name stem has at most 80 characters, each a letter, a digit, "_" or "-" |
| `Hunter.ImageStemSafe` | List_Huntercardtcg_Single.py:147-148 | a name already made of those characters is kept, cut to 80 |
| `Hunter.ImageExtShape` | List_Huntercardtcg_Single.py:149-151 | the extension starts with ".", holds no "/" or "?", and is ".jpg" or taken from the URL |
| `Hunter.ImageExtDefault` | List_Huntercardtcg_Single.py:149-151 | a URL without a dot is saved as ".jpg" |
| `Hunter.ProductRowSpec` | List_Huntercardtcg_Single.py:91-134 | a container gives a row exactly when it has a link and a title; the price column reads back as the price of its price text, the foil column is "Sí" exactly when the title says foil, and the URL is never site-relative |
| `Hunter.ParseContainers` | List_Huntercardtcg_Single.py:89-136 | the loop keeps, in order, the rows of the containers that have a link and a title |
| `Hunter.Scrape` | List_Huntercardtcg_Single.py:168-192 | pages are read from 1 until the first without products or whose request raised, and the products collected are those of the pages before it, in order; a raised request ends the run with no CSV, and otherwise the CSV is written with every product, even none; nothing is collected exactly when page 1 ends the loop |
| `Hunter.FailedFirstPage` | List_Huntercardtcg_Single.py:168-181 | a first page that answers with a status other than 200 ends the run before any product |
| `PayToWin.FormatMoneyShape` | List_PayToWin_Foil_Single.py:12-17 | no amount gives the empty text; an amount gives "$", a "-" when negative, and its digits grouped in threes by ".", which read back as its size |
| `PayToWin.Pesos` | List_PayToWin_Foil_Single.py:56 | `int(x) // 100` is the whole number of pesos in `x` cents, rounding down also for a negative amount |
| `PayToWin.CardPrice` | List_PayToWin_Foil_Single.py:53-59 | the price column is empty exactly when the stripped `data-price` is not an integer |
| `PayToWin.CardPriceDigits` | List_PayToWin_Foil_Single.py:53-57 | a digit string of cents gives "$" and its whole pesos, grouped |
| `PayToWin.CardRowSpec` | List_PayToWin_Foil_Single.py:31-66 | a card without title is skipped; a card gives a row exactly when its title has a link with an `href`, its image (if any) has a URL, and it has an active chip with `data-price`; the URL is the site plus the `href`; a crash only happens on a card with a title |
| `PayToWin.ParseCards` | List_PayToWin_Foil_Single.py:27-68 | the loop keeps the rows of the cards in order, or stops with the first card that raises |
| `PayToWin.ImageFileNameSpec` | List_PayToWin_Foil_Single.py:86 | the file name is the first 80 characters of the name, the safe ones kept and every other one made "_", followed by ".jpg" |
| `PayToWin.Scrape` | List_PayToWin_Foil_Single.py:99-113 | pages are read from 1 until the first that gives no rows or raises, in its request or in its parse; the rows collected are those of the earlier pages in order; a crash, which ends the script before the CSV, is reported exactly when the last page raised, with its cause |
| `Paging.CollectPages` | List_Huntercardtcg_Single.py:168-181 | pages are read from the first until one is empty; every page read had items, the next had none, and the items collected are theirs in page order; nothing is collected exactly when the first page is empty |
| `Paging.CollectUntil` | List_TiendaLaComarca.py:113-136 | pages are read while they say to go on; the rows collected are those of the pages read in order, and the run ends with the exception of the last page exactly when it raised |
| `Paging.StopUnique` | List_Huntercardtcg_Single.py:173-178 | the stopping page is the first empty one, so the number of pages read is determined |
| `Paging.CollectedFrom` | List_Huntercardtcg_Single.py:179 | every collected item comes from one of the pages read |
| `Paging.CollectedPrefix` | List_Huntercardtcg_Single.py:179 | the items of fewer pages are a prefix of the items of more |
| `Paging.CollectedEmpty` | List_Huntercardtcg_Single.py:176-179 | when every page read has items, nothing is collected exactly when no page was read |
| `PiedraBruja.RemoveGroups` | List_PiedraBruja.py:72 | removing the groups never lengthens the name |
| `PiedraBruja.RemoveGroupsConcat` | List_PiedraBruja.py:72 | text before the first group is kept: a prefix without "(" that ends in a non-blank comes out unchanged, and the rest is cleaned on its own |
| `PiedraBruja.RemoveGroupsGroup` | List_PiedraBruja.py:72 | a one-line group " (g)" is removed together with the whitespace after it, and the scan goes on after that |
| `PiedraBruja.RemoveGroupsNoGroup` | List_PiedraBruja.py:72 | on a single line, no "(" is left with a ")" after it |
| `PiedraBruja.MultiLineGroupSurvives` | List_PiedraBruja.py:72 | across lines a group can survive: "(\n (x) y)" becomes "(y)", since `\s*` takes the line break with the inner match and `re.sub` does not rescan |
| `PiedraBruja.RemoveGroupsNoOpen` | List_PiedraBruja.py:72 | a name without "(" has no group to remove |
| `PiedraBruja.RemoveFinalGroup` | List_PiedraBruja.py:72 | a final parenthesised note and the blank before it are removed: "Sol Ring (Foil)" becomes "Sol Ring" |
| `PiedraBruja.CleanNameDropsNote` | List_PiedraBruja.py:71-74 | a name with a final note and no final number comes out as the stripped text before the note |
| `PiedraBruja.NoTrailingNumber` | List_PiedraBruja.py:73 | a name that does not end in a digit or a newline keeps its end |
| `PiedraBruja.TrailingNumberCut` | List_PiedraBruja.py:73 | otherwise the final digits and the whitespace before them are removed, and nothing else |
| `PiedraBruja.FoilInContext` | List_PiedraBruja.py:76-77 | foil is a case-insensitive substring test, so "Non-Foil" and any text around a foil mention count as foil |
| `PiedraBruja.ItemRowSpec` | List_PiedraBruja.py:111-131 | a product gives a row exactly when it has a title link with an `href`; the foil column is the yes mark exactly when the name mentions foil, the name has no outer whitespace, the URL starts with the site, and a product without price element is worth 0 |
| `PiedraBruja.ParseItems` | List_PiedraBruja.py:110-131 | the loop keeps the rows of the products in order, or stops with the first link without `href` |
| `PiedraBruja.PageDataSpec` | List_PiedraBruja.py:94-137 | the loop goes on exactly after a page answered 200 with product items, even when none gave a row; a page that stops it gives no rows; a request that raises is a crash |
| `PiedraBruja.Scrape` | List_PiedraBruja.py:139-159 | pages are read from 1 while the flag says so; the rows are those of the pages read in order; nothing is written after a crash, whether a request or a parse raised, and otherwise the file is written exactly when some row was collected |
| `Oasis.NonFoilIsNot` | List_Oasis.py:10-15 | a name holding any spelling of "non-foil" anywhere ("Non-Foil", "NON-FOIL", ...) is not foil |
| `Oasis.FoilIs` | List_Oasis.py:10-15 | a name holding any spelling of "foil" and no "non-foil" in any case is foil |
| `Oasis.CleanNameSpec` | List_Oasis.py:17-21 | both branches give the stripped text before the first "(", which has no "(" and no outer whitespace |
| `Oasis.CleanNameIdempotent` | List_Oasis.py:17-21 | cleaning a cleaned name changes nothing |
| `Oasis.Values` | List_Oasis.py:58 | one price per variant, in order |
| `Oasis.LowestCents` | List_Oasis.py:53-62 | the lowest price exists exactly when the attribute is there and is a JSON object with at least one variant and every price parses; it is then one of the variant prices and no greater than any of them |
| `Oasis.ProductCardSpec` | List_Oasis.py:39-76 | a product gives a card exactly when it has a title and its variant prices all parse with a non-zero lowest one; the name has no "(", and the URL is empty exactly when the product has no usable link |
| `Oasis.ParseProducts` | List_Oasis.py:38-78 | the loop keeps, in order, the cards of the products that are not skipped |
| `Oasis.FetchCards` | List_Oasis_Single.py:72-136 | the retry loop and the product loop give the page's cards, none after `REINTENTOS` failures, with at most that many requests |
| `Oasis.Scrape` | List_Oasis.py:80-105 | pages are read from 1 until the first without cards or whose request raised, a non-200 page counting as empty; the cards are those of the earlier pages in order; a raised request writes nothing, and otherwise the file is written exactly when page 1 had cards, with all of them |
| `Oasis.ScrapeWithRetries` | PendienteList_Oasis_Single.py:157-176 | the same page loop and write guard over pages fetched with the bounded retry |
| `Oasis.UnreachableSiteWritesNothing` | List_Oasis_Single.py:138-154 | a first page whose five requests all fail ends the run before any card, so nothing is written |
| `Riven.ProductCardSpec` | List_RivenDelElConcilio-single.py:93-113 | a product gives a card exactly when it has a title link; the card carries the year asked for, its name is the already stripped title, and its price is never negative |
| `Riven.ParseProducts` | List_RivenDelElConcilio-single.py:92-124 | the loop keeps, in order, the cards of the products that have a title link |
| `Riven.FetchCards` | List_RivenDelElConcilio-single.py:69-124 | the retry loop and the product loop give the page's cards, none after `REINTENTOS` failures, with at most that many requests |
| `Riven.PageCardsYear` | List_RivenDelElConcilio-single.py:107-108 | every card of a page of a year carries that year |
| `Riven.CollectedYear` | List_RivenDelElConcilio-single.py:132-145 | every card collected for a year carries that year |
| `Riven.TotalsKeys` | List_RivenDelElConcilio-single.py:131-146 | the summary has a total for every year run and for no other |
| `Riven.TotalsLast` | List_RivenDelElConcilio-single.py:146 | the total of a year is the card count of its last run, a later run of the same year overwriting an earlier one |
| `Riven.ScrapeYear` | List_RivenDelElConcilio-single.py:133-145 | one year's pages are read from 1 until the first without cards; the count is the number of cards collected |
| `Riven.ScrapeYears` | List_RivenDelElConcilio-single.py:129-158 | each year is scraped in order and its cards appended; the summary holds the years run, each with the count of its last run; the file is written exactly when some card was found, with all of them |
| `Riven.TotalsAddUp` | List_RivenDelElConcilio-single.py:131-163 | with no year listed twice, the totals of the summary add up to the number of cards written |
| `GameOfMagic.CleanName` | List_GameOfMagic_singles.py:69-71 | the cleaned name has no outer whitespace and is a contiguous part of the name |
| `GameOfMagic.ProductCardSpec` | List_GameOfMagic_singles.py:98-120 | a product gives a card exactly when it has a title link; the name equals the already stripped title, and the price is never negative and 0 without a price tag |
| `GameOfMagic.ParseProducts` | List_GameOfMagic_singles.py:97-126 | the loop keeps, in order, the cards of the products that have a title link |
| `GameOfMagic.FetchCards` | List_GameOfMagic_singles.py:73-126 | the retry loop and then the product loop give the page's cards, none after `REINTENTOS` failures, with at most that many requests |
| `GameOfMagic.Scrape` | List_GameOfMagic_singles.py:128-150 | pages are read from 1 until the first without cards; the cards are those of the earlier pages in order; the file is written exactly when page 1 had cards, with all of them |
| `Comarca.Values` | List_TiendaLaComarca.py:88 | the list comprehension gives one value per variant, in order, a missing price counting as 0 |
| `Comarca.LowestPrice` | List_TiendaLaComarca.py:87-89 | the lowest price is defined exactly when `int()` accepts every variant price; it is 0 without variants and otherwise the value of one variant, no greater than any other |
| `Comarca.ProductRecordSpec` | List_TiendaLaComarca.py:82-95 | a product gives a record exactly when all its variant prices are integers; the name falls back to "SIN NOMBRE", the URL is the product page of a non-empty handle and "" otherwise, and the price is 0 without variants |
| `Comarca.ExtractRecords` | List_TiendaLaComarca.py:79-96 | the loop gives one record per product, in order, or the exception of the first product that raises |
| `Comarca.JsonOutcome` | List_TiendaLaComarca.py:63-71 | an attempt counts as a success exactly when the request succeeded with a non-error status and a JSON body |
| `Comarca.PageProductsSpec` | List_TiendaLaComarca.py:58-77 | five failed attempts give no products; otherwise the first successful attempt decides: its `products` list, or a crash when the JSON is not an object |
| `Comarca.FetchProducts` | List_TiendaLaComarca.py:58-77 | the retry loop returns `PageProducts` after at most `REINTENTOS` requests |
| `Comarca.PageDataSpec` | List_TiendaLaComarca.py:116-123 | the loop goes on only after a non-empty product list, which gives as many records as products; an empty list stops it |
| `Comarca.Scrape` | List_TiendaLaComarca.py:98-138 | pages are read from 1 until one has no products or raises; the records collected are those of the earlier pages in order; nothing is written after a crash, and otherwise the file is written exactly when the list is non-empty, with that list |
| `Listing.CleanPrice` | List_GameOfMagic_singles.py:59-67 | the price is the number formed by all digits of the text in order, and 0 when the text has none |
| `Listing.DigitsOfGrouped` | List_GameOfMagic_singles.py:63 | deleting the non-digits of digits and separators deletes exactly the separators |
| `Listing.CleanPriceRoundTrip` | List_GameOfMagic_singles.py:59-67 | an amount shown with thousands separators between text with no digits ("$6,400 CLP") reads back as that amount |
| `Listing.CleanPriceNoDigits` | List_GameOfMagic_singles.py:61-67 | a text without digits, the empty text included, is worth 0 |
| `Listing.AbsoluteUrl` | List_GameOfMagic_singles.py:107-109 | a link starting with "/" gets the site prefixed, any other is kept; the link always ends the result |
| `Listing.ProductPrice` | List_GameOfMagic_singles.py:112-113 | the price of a product is never negative, and 0 without a price element |
| `Listing.Outcome` | List_Oasis_Single.py:77-85 | an attempt succeeds exactly when an answer came back with a status outside 400-599, which `raise_for_status` refuses |
| `Listing.FetchedSpec` | List_Oasis_Single.py:74-89 | a page is fetched exactly when one of the five requests succeeds, and then it is the body of the first that did |
| `Listing.Fetch` | List_Oasis_Single.py:74-89 | the retry loop returns `Fetched` with at most five requests, and all five when the page is given up |
| `Unificador.HeadGroup` | Unificador.py:12 | the scan's test at the first character holds exactly when a group opened there holds "foil" |
| `Unificador.ShiftGroup` | Unificador.py:12 | a group opened after the first character is a group of the rest of the text |
| `Unificador.HasFoilGroupSpec` | Unificador.py:12 | the search succeeds exactly when some "(", the first ")" after it, and "foil" in any case between them occur in the name |
| `Unificador.DetectFoil` | Unificador.py:8-13 | the foil column is always "Sí" or "No" |
| `Unificador.DetectFoilSpec` | Unificador.py:8-13 | an empty name is not foil; a name is foil exactly when a parenthesised group without ")" inside holds "foil" in any case |
| `Unificador.FoilSuffix` | Unificador.py:12-13 | "Name (Foil)" is foil |
| `Unificador.NoGroupNoFoil` | Unificador.py:12-13 | a name without "(" is never foil |
| `Unificador.NormalizeSpec` | Unificador.py:26-38 | the original name is `nombre_original` or else `nombre`; the name is `nombre` or else the original name; a non-empty foil cell is kept and otherwise foil is detected from the original name; price and URL are copied; the name is empty only when both name columns are |
| `Unificador.FileRecords` | Unificador.py:25-40 | one merged row per row of the file, in order, each normalised |
| `Unificador.UnifiedSpec` | Unificador.py:16-40 | the merged table has one row per row of the `List_*.csv` files, each tagged with such a file and carrying a foil value |
| `Unificador.ReadRows` | Unificador.py:23-40 | the row loop gives the file's merged rows in order |
| `Unificador.Unify` | Unificador.py:15-40 | the file loop gives the rows of the `List_*.csv` entries in listing order, then row order |
| `IHaveIt.BackTrack` | I_Have_it.py:76 | the greedy run backs off to its longest prefix that ends at a word boundary |
| `IHaveIt.FirstWordFromSpec` | I_Have_it.py:76-77 | the fallback finds a word exactly when one starting with an ASCII letter, made of letters, digits, "'" and "-", with a word boundary on each side, starts in the line, and what it finds is such a word |
| `IHaveIt.FirstWordFromLeftmost` | I_Have_it.py:76-77 | `re.search` takes the leftmost match: what the fallback finds starts no later than any word of that shape |
| `IHaveIt.WordNotMissed` | I_Have_it.py:76 | a word of that shape at a position is always matched there |
| `IHaveIt.CardNameSplit` | I_Have_it.py:66-73 | a stripped line with a space gives the stripped text after the first space up to the first "(", when that is not empty |
| `IHaveIt.CardNameLine` | I_Have_it.py:61-73 | the documented deck line "2 Overkill (FIN) 109", and a line without set, give the card name |
| `IHaveIt.CardNameNonEmpty` | I_Have_it.py:66-77 | a name that is found is never empty |
| `IHaveIt.DeckNamesSpec` | I_Have_it.py:79-86 | the deck holds exactly the names read from its lines |
| `IHaveIt.LoadCards` | I_Have_it.py:79-86 | the line loop builds that set |
| `IHaveIt.NameColumn` | I_Have_it.py:97-102 | the first header cell equal to "nombre" in any case, or the header length when there is none |
| `IHaveIt.Padded` | I_Have_it.py:117-119 | the row keeps its cells and gets "" cells up to the length asked for |
| `IHaveIt.MarkRowSpec` | I_Have_it.py:113-124 | a row is dropped exactly when empty, fails exactly when it ends before a name column placed after the Tengo column, and otherwise is padded and marked "Sí" or "No" by its stripped name |
| `IHaveIt.MarkedRows` | I_Have_it.py:112-124 | without a failure the loop marks each non-empty row, in order |
| `IHaveIt.NameNotTengo` | I_Have_it.py:107-110 | the name column is never the Tengo column, and the header always has a Tengo cell |
| `IHaveIt.TableFailures` | I_Have_it.py:91-121 | the update fails on a file without rows, on a header without a name column, and on a short row, each in exactly the case that raises or returns early |
| `IHaveIt.ShortRowFails` | I_Have_it.py:113-121 | with a name column the only failure is a short row, and it happens exactly when a non-empty row ends before a name column placed after the Tengo column |
| `IHaveIt.TableBody` | I_Have_it.py:112-128 | a written file is the header with a Tengo cell above the rows of the loop |
| `IHaveIt.TableRows` | I_Have_it.py:107-128 | the written file is the header with a Tengo cell, then each non-empty row in order, marked in the Tengo column and otherwise unchanged |
| `IHaveIt.TableIdempotent` | I_Have_it.py:88-128 | updating an updated file again with the same cards changes nothing |
| `IHaveIt.Pad` | I_Have_it.py:118-119 | the padding loop computes `Padded` |
| `IHaveIt.FindNameColumn` | I_Have_it.py:97-102 | the header loop with its `break` computes `NameColumn` |
| `IHaveIt.MarkAll` | I_Have_it.py:112-124 | the row loop marks the rows or stops at the first short one |
| `IHaveIt.UpdateTable` | I_Have_it.py:88-128 | `actualizar_csv` computes `Table` |
| `IHaveIt.FolderIdSpec` | I_Have_it.py:156-158 | an id is found exactly when some "/folders/" is followed by an id character; it is the whole run of id characters after the first such marker |
| `IHaveIt.FolderIdAt` | I_Have_it.py:157 | the id read after the leftmost marker is that run |
| `IHaveIt.FolderIdOfLink` | I_Have_it.py:156-158 | a Drive folder link gives the id after "/folders/" |
| `IHaveIt.ListFilesSpec` | I_Have_it.py:18-19 | the listed files are exactly the names that end in the extension in any case |
| `IHaveIt.Pick` | I_Have_it.py:39-56 | a number in range picks one of the files |
| `IHaveIt.MatchesSpec` | I_Have_it.py:46 | the matches are files whose name holds the entry in any case |
| `IHaveIt.ChooseInFiles` | I_Have_it.py:21-59 | the choice is always one of the listed files, and there is none without files |
| `IHaveIt.ChooseDirect` | I_Have_it.py:33-44 | a blank entry picks the only file; a number in range picks that file |
| `IHaveIt.ChooseByName` | I_Have_it.py:46-59 | an entry that is not a number in range is looked for in the names: no match gives none, a single match gives it, and a chosen file holds the entry |
| `IHaveIt.ChosenHasExtension` | I_Have_it.py:18-59 | a chosen file has the extension asked for |
| `BuscadorCartas.DigitPrice` | buscador_cartas.py:51 | the digit price exists exactly when the price text has a digit |
| `BuscadorCartas.BestOffer` | buscador_cartas.py:47-51 | a best offer, when there is one, is an available result with a price |
| `BuscadorCartas.BestOfferErr` | buscador_cartas.py:47-51 | the search raises exactly when a result is the empty dict or a kept price has no digit |
| `BuscadorCartas.BestOfferNone` | buscador_cartas.py:48-50 | there is no best offer exactly when no result is available with a price, and nothing raises |
| `BuscadorCartas.BestOfferSome` | buscador_cartas.py:47-51 | the best offer is an available result whose digit price is at most that of every candidate and strictly below that of every earlier candidate, as `min` keeps the first least element |
| `BuscadorCartas.BestOfferLowest` | buscador_cartas.py:51 | the best offer's digit price is at most that of every candidate |
| `BuscadorCartas.BestOfferFirst` | buscador_cartas.py:51 | every candidate before the best offer costs strictly more |
| `BuscadorCartas.EarlierCostsMore` | buscador_cartas.py:51 | an element before the first least element has a strictly greater key |
| `BuscadorCartas.MinKey` | buscador_cartas.py:32 | `min` of the prices, with "-" as infinity, is one of them and no greater than any |
| `BuscadorCartas.ShownErr` | buscador_cartas.py:16-38 | showing raises exactly when the best-price search does: on the empty dict or on an available price without digits |
| `BuscadorCartas.ShownPartition` | buscador_cartas.py:21-22 | every result is shown in exactly one group: the available ones, and the others |
| `BuscadorCartas.ShownMarks` | buscador_cartas.py:28-37 | one mark per available result, set exactly on the results whose price is the least, "-" counting as infinity |
| `BuscadorCartas.MostrarResultados` | buscador_cartas.py:16-44 | the two comprehensions, the price loop, `min` and the marking loop compute `Shown` |
| `BuscadorCartas.BestIsMarked` | buscador_cartas.py:16-51 | the display and the best-price search fail together, and the best offer is one of the highlighted results |
| `BuscadorCartas.BestMarked` | buscador_cartas.py:34-51 | the best offer is shown, and marked |
| `BuscadorCartas.CardRowsSpec` | buscador_cartas.py:103-115 | a card raises exactly when its best-price search does, gives no row exactly when it has no best offer, and otherwise gives a row with its name and the store, price and URL of an available result |
| `BuscadorCartas.BatchesPartition` | buscador_cartas.py:101-102 | the batches cover the cards in order; none is empty, none is longer than the batch size, and all but the last have exactly that size |
| `BuscadorCartas.GoCompleted` | buscador_cartas.py:101-142 | a run that completes went through every card, and its rows are the cards' rows in order |
| `BuscadorCartas.GoStepErr` | buscador_cartas.py:103-106 | a batch that raises ends the run with the exception |
| `BuscadorCartas.GoStepLast` | buscador_cartas.py:101-135 | the last batch completes the run with its rows appended |
| `BuscadorCartas.GoStepPrompt` | buscador_cartas.py:117-133 | between two batches the first "S" or "N" reply decides: "N" stops with the rows so far, "S" goes on with the next batch, and replies running out raise |
| `BuscadorCartas.AskContinue` | buscador_cartas.py:117-133 | the prompt loop returns the user's choice and the replies left, and the run goes on exactly as `Go` says for that choice |
| `BuscadorCartas.ProcessBatch` | buscador_cartas.py:103-115 | the card loop gives the rows of the batch's cards in order, or raises with the first card that does |
| `BuscadorCartas.RunBatches` | buscador_cartas.py:99-133 | the batch loop with its prompt computes `Go` over the batches from the first card |
| `BuscadorCartas.BatchSizeSpec` | buscador_cartas.py:87-96 | a reply is accepted exactly when it is "-" or a positive decimal number once stripped, and a number is used as typed |
| `BuscadorCartas.BatchSizeZero` | buscador_cartas.py:89-90 | a zero batch size only comes from "-" with no cards |
| `BuscadorCartas.EmptyListCrashes` | buscador_cartas.py:89-101 | with an empty card file and the reply "-", the code as written raises in `range` where the intended run does nothing |
| `BuscadorCartas.ManyAgree` | buscador_cartas.py:85-101 | with at least one card the code as written and the intended run agree |
| `BuscadorCartas.ManyCompleted` | buscador_cartas.py:85-142 | a completed many-cards run holds the rows of every card of the file with a best offer, in file order |
| `BuscadorCartas.AskedCompleted` | buscador_cartas.py:87-142 | once the batch-size prompt has answered, a completed run went through every card |
| `BuscadorCartas.BatchesCompleted` | buscador_cartas.py:101-142 | a completed batch loop gives the rows of all cards, in order |
| `BuscadorCartas.BuscarVarias` | buscador_cartas.py:82-142 | the many-cards mode, with an empty card list doing nothing, computes `ManyIntended` |
| `BuscadorCartas.ManyIntendedAsked` | buscador_cartas.py:87-101 | the batch-size prompt decides the run: replies running out raise, an accepted size runs the batches from the next reply on |
| `InekoBatch.Utf8` | Buscador_inekosingles.py:41 | a character is one to four bytes |
| `InekoBatch.Escaped` | Buscador_inekosingles.py:41 | each byte becomes three characters |
| `InekoBatch.QuoteSpec` | Buscador_inekosingles.py:41-42 | a card name of unreserved characters is kept as it is, and the quoted name holds only "%" and unreserved characters, so no blank reaches the link |
| `InekoBatch.EscapedChars` | Buscador_inekosingles.py:41 | an escaped byte is "%" and hex digits |
| `InekoBatch.Retry` | Buscador_inekosingles.py:45-73 | the loop makes at most three requests, and ends with a page only when the response it holds did not fail |
| `InekoBatch.RetryIgnoresLast` | Buscador_inekosingles.py:45-73 | how the loop ends and how many requests it makes do not depend on the response held from an earlier card, nor does a page it got |
| `InekoBatch.AllThrottled` | Buscador_inekosingles.py:49-73 | three answers of 429 end the loop through the `else` branch after three requests |
| `InekoBatch.ThrottledExactly` | Buscador_inekosingles.py:49-73 | the loop ends through its `else` exactly when the first two requests got a `RequestException`, a 429 or an error status, in any mix, and the third got 429 |
| `InekoBatch.GaveUpSpec` | Buscador_inekosingles.py:56-71 | the loop gives up only after three requests, and a page it gets is the answer to its last request |
| `InekoBatch.Request` | Buscador_inekosingles.py:45-73 | the request loop computes `Retry` |
| `InekoBatch.PageRowsSpec` | Buscador_inekosingles.py:76-156 | a titled link without `href` gives one "Error" row; otherwise a page without blocks or without coincidences gives one "No encontrado" row, a page with available coincidences gives them in page order, and otherwise one "Todo agotado" row from the first coincidence |
| `InekoBatch.CleanPageRows` | Buscador_inekosingles.py:80-145 | the same, for a page on which no product raises |
| `InekoBatch.CoincidenceStates` | Buscador_inekosingles.py:109-115 | every coincidence is either available or sold out |
| `InekoBatch.AllSoldOut` | Buscador_inekosingles.py:130-145 | with no available coincidence, the first coincidence is the first sold-out one |
| `InekoBatch.NetworkFailureTwice` | Buscador_inekosingles.py:56-77 | a card whose three requests fail on the network gives two "Error" rows as written, one as intended |
| `InekoBatch.AgreeWithoutGivingUp` | Buscador_inekosingles.py:39-156 | where no card gives up, the run as written and the run as intended give the same rows |
| `InekoBatch.CardRowsSpec` | Buscador_inekosingles.py:45-156 | a card gives no row exactly when its third request got 429, whatever the first two got, so that the loop ends through its `else`; a card that gives up gives exactly one "Error" row |
| `InekoBatch.ProcessPage` | Buscador_inekosingles.py:76-156 | the product loop and the filtering compute `PageRows` |
| `InekoBatch.BuscarCarta` | Buscador_inekosingles.py:41-156 | one card gives its intended rows and leaves the response the loop holds |
| `InekoBatch.BuscarTodas` | Buscador_inekosingles.py:28-39 | the loop over the non-blank lines of the card list gives the intended rows, card after card |
| `CheckHunter.FoilParseSpec` | checkHunter.py:17-23 | the foil prompt answers yes exactly for "s" and no exactly for "n", in any case and padding, and asks again for anything else |
| `CheckHunter.MaxParseSpec` | checkHunter.py:26-35 | the price prompt gives no limit exactly for "-", and a limit exactly for a run of digits, whose value it is |
| `CheckHunter.MaxParseRoundTrip` | checkHunter.py:31-32 | a limit typed as its decimal digits is read back as that limit |
| `CheckHunter.ShortNameSpec` | checkHunter.py:82 | the short name is the part of the title before the first en dash without its outer whitespace: a slice of the title with no en dash up to its end |
| `CheckHunter.ShownSpec` | checkHunter.py:58-85 | a product is shown exactly when it has a title and a price that reads as an integer and passes both filters; its line carries that price, the title's foil flag and its short name |
| `CheckHunter.ShownPasses` | checkHunter.py:75-79 | a line shown passes both filters |
| `CheckHunter.PriceRoundTrip` | checkHunter.py:64-67 | the price the listing scraper writes ("$" and dot-grouped thousands) is read back as the same amount |
| `CheckHunter.PriceOfDigits` | checkHunter.py:64-67 | a price whose text is a run of digits once stripped and rid of "$" and "." reads as their value |
| `CheckHunter.ShowPage` | checkHunter.py:58-85 | the product loop shows, in order, the lines of the products that pass, and counts them |
| `CheckHunter.ShownAllPass` | checkHunter.py:58-85 | every line of a page passes both filters |
| `CheckHunter.PageStops` | checkHunter.py:40-53 | the loop stops at a page exactly when its request raised, its status is not 200 or it has no product |
| `CheckHunter.CollectedPasses` | checkHunter.py:40-87 | every line shown on any number of pages passes both filters and is the line of a product of a page read |
| `CheckHunter.Browse` | checkHunter.py:37-89 | the page loop reads pages from 1 until the first that stops it, and ends with the exception of that page's request or with the lines shown and their count |
| `CheckHunter.CheckCatalogue` | checkHunter.py:16-89 | the two prompts take the first valid replies, replies running out raise, and then the page loop runs with the chosen filters |
| `Identificador.SubHash` | idintificador.py:10 | the text left after deleting each "#" with the rest of its line contains no "#" |
| `Identificador.CleanLineSpec` | idintificador.py:8-10 | a cleaned line has no "#" and no leading or trailing whitespace |
| `Identificador.SubHashOneLine` | idintificador.py:10 | on a line without a line break, the substitution keeps exactly the text before the first "#" |
| `Identificador.CleanFileLine` | idintificador.py:75-76 | a line read from the file, line break included, cleans to its text before the first "#", stripped |
| `Text.StripTrailingSpace` | idintificador.py:10 | a trailing whitespace character, such as the line break, does not change the stripped text |
| `Identificador.JoinUrl` | idintificador.py:33 | the joined card address always starts with "http" |
| `Identificador.JoinUrlSpec` | idintificador.py:32-33 | an absolute link is kept as it is, a site-relative path or a query is put under https://scryfall.com, and joining an already joined address changes nothing (no "scryfall.comhttps" duplication) |
| `Identificador.ArenaNameSpec` | idintificador.py:48 | the Arena prefix "A-" is removed once and only at the start; a name without it is kept |
| `Identificador.CardDataSpec` | idintificador.py:12-64 | the lookup raises exactly when one of its requests raises; otherwise the row has no address exactly when the search failed or found no card link, and is then the searched name with empty fields; a found address is that of the first card link; a card page that did not answer 200 gives the searched name, empty cost and type, and the address; the name differs from the searched one only when the card page has a name element |
| `Identificador.NamesSpec` | idintificador.py:75-76 | there are no more names than lines, a file of blank lines gives no names, and every name has no "#" and no outer whitespace |
| `Identificador.Identify` | idintificador.py:80-83 | the loop gives one row per name in file order, each the lookup of that name, and fails exactly when the lookup of some name raises |
| `ListaCartas.JoinSnoc` | Lista_Cartas.py:146 | joining one more part appends the separator and the part |
| `ListaCartas.JoinCount` | Lista_Cartas.py:146 | when the separator holds a character once and no part holds it, the joined text holds it once per gap, so the parts can be told apart |
| `ListaCartas.LookupKeys` | Lista_Cartas.py:60-65 | a format is found in the dict exactly when it is one of the dict's keys |
| `ListaCartas.PutSpec` | Lista_Cartas.py:65 | storing a state keeps keys distinct, maps the format to the new state, leaves every other format alone, and appends a new format while an existing one keeps its place |
| `ListaCartas.KeysFormats` | Lista_Cartas.py:60-65 | the dict's keys are its formats, position by position |
| `ListaCartas.LegalitiesSpec` | Lista_Cartas.py:60-65 | the legalities dict has one entry per format, holding the stripped state of that format's last complete row; a format is present exactly when some complete row names it |
| `ListaCartas.CollectLegalities` | Lista_Cartas.py:60-65 | the loop over the legality rows builds exactly that dict |
| `ListaCartas.EntryTexts` | Lista_Cartas.py:146 | one "format:state" text per entry, in order |
| `ListaCartas.LegalitiesCellSpec` | Lista_Cartas.py:146 | an empty dict gives an empty cell, one more entry appends ", format:state", and without commas in the entries the cell has one comma fewer than entries |
| `ListaCartas.Normalized` | Lista_Cartas.py:49 | every paragraph of the rules text is cleaned to single blanks |
| `ListaCartas.DetailSpec` | Lista_Cartas.py:22-77 | a card record exists exactly when the entry has a link and its request answered with a non-error status; the record then carries that link, a clean type line, stats and artist, and either the page's clean name or the list name |
| `ListaCartas.SetNameSpec` | Lista_Cartas.py:79-84 | without a title the set is "Scryfall_Set_Desconocido"; otherwise it is the title's words joined by single blanks, and cleaning it again changes nothing |
| `ListaCartas.Tasks` | Lista_Cartas.py:108-116 | one task per grid entry, in order |
| `ListaCartas.ScrapeList` | Lista_Cartas.py:86-123 | a failed list page gives no cards and "Set_Desconocido"; otherwise the set name comes from the title and the records are those of the queued entries whose page answered, in completion order, and so the same multiset as the records of all queued entries |
| `ListaCartas.Submit` | Lista_Cartas.py:108-116 | the submitting loop queues one task per grid entry, in order |
| `ListaCartas.Gather` | Lista_Cartas.py:118-121 | the completion loop keeps the record of every completed task that has one, in completion order |
| `ListaCartas.KeepFileChars` | Lista_Cartas.py:130 | the kept text holds only letters, digits, blanks, "-" and "_", all taken from the set name |
| `ListaCartas.FileStemSpec` | Lista_Cartas.py:130 | the file stem holds only allowed characters, has no outer whitespace, and cleaning it again changes nothing |
| `ListaCartas.KeepAllowed` | Lista_Cartas.py:130 | a name made only of allowed characters is kept whole |
| `ListaCartas.Rows` | Lista_Cartas.py:137-147 | one row per record, in order |
| `ListaCartas.Script` | Lista_Cartas.py:153-170 | an empty typed address ends the script at once; a failed list or no records ends it without a file; otherwise the file is named after the cleaned set name and holds the header, then one row per record in completion order |
| `RivendelSearch.PageValue` | tiendas/rivendelelconcilio.py:46-51 | a page without a price element gives price 0 |
| `RivendelSearch.PageValueRoundTrip` | tiendas/rivendelelconcilio.py:47-49 | a price shown as "$" + thousands-grouped digits + " CLP" is read back as the number shown |
| `RivendelSearch.ShownCleaned` | tiendas/rivendelelconcilio.py:47 | the cleaning steps reduce a shown price to its digits without the dots, and the blank before "CLP" |
| `RivendelSearch.ReadOptions` | tiendas/rivendelelconcilio.py:40-56 | the options loop gives one choice per option, with the stripped lower-cased text, its stock and the page price, and fails when a stock is not a number |
| `RivendelSearch.InStock` | tiendas/rivendelelconcilio.py:61 | the available options are exactly the options with that name and a positive stock |
| `RivendelSearch.Cheapest` | tiendas/rivendelelconcilio.py:64 | the chosen option is one of the available ones, and none is cheaper |
| `RivendelSearch.SelectSpec` | tiendas/rivendelelconcilio.py:58-65 | nothing is selected exactly when no option in stock is named "ingles foil" or "ingles"; otherwise the selected option is in stock with one of those names, it is "ingles" only when no "ingles foil" option is in stock, and no option in stock with the same name is cheaper |
| `RivendelSearch.Choose` | tiendas/rivendelelconcilio.py:59-65 | the priority loop with its break selects exactly that option |
| `RivendelSearch.SearchSpec` | tiendas/rivendelelconcilio.py:12-110 | the record is always from this store and has an option field; it says "Sí" exactly when the search answered, some product name holds the query, and the first such product's page has readable options with a selection; the product is then that name and the price is "$" + the selected price; otherwise the price is "-" |
| `RivendelSearch.NoMatchNotFound` | tiendas/rivendelelconcilio.py:89-97 | with no product whose name holds the query, the record is "No" for the query, at the search address |
| `RivendelSearch.ExamineProduct` | tiendas/rivendelelconcilio.py:31-84 | the body for the matching product gives the record of its page and selection, or fails where the script raises |
| `RivendelSearch.FindMatch` | tiendas/rivendelelconcilio.py:25-87 | the product loop stops at the first product whose name holds the query, ignoring case |
| `RivendelSearch.Buscar` | tiendas/rivendelelconcilio.py:12-110 | `buscar` gives the record the search specification describes |
| `InekoSearch.ReadBlock` | tiendas/inekosingles.py:29-49 | a block without a title is skipped; reading raises exactly when the title has no href or the price is neither "-" nor an integer once "$", "CLP" and dots are removed; otherwise the item has the stripped title, is available exactly when no badge says "agotado", and has no price value exactly when its price text is "-" |
| `InekoSearch.ScanFound` | tiendas/inekosingles.py:52-53 | after the loop, `encontrado` holds exactly when some item's name holds the query, ignoring case |
| `InekoSearch.ScanAvailable` | tiendas/inekosingles.py:54-55 | after the loop, `hay_disponible` holds exactly when some available item's name holds the query |
| `InekoSearch.ScanBest` | tiendas/inekosingles.py:56-66 | with no matching, available, priced item the best product is the empty dict and there is no least price; otherwise the best is the cheapest such item, the first one on ties, and the least price is its price |
| `InekoSearch.BestStep` | tiendas/inekosingles.py:57-66 | reading one more item keeps the best the first cheapest candidate read so far |
| `InekoSearch.SearchSpec` | tiendas/inekosingles.py:68-87 | with no available item whose name holds the query the record is "No" for the query; with some but none priced it is the empty dict; otherwise it is the first cheapest priced one |
| `InekoSearch.CrashNotFound` | tiendas/inekosingles.py:89-96 | a block that raises anywhere on the page gives the "No" record for the query |
| `InekoSearch.Visit` | tiendas/inekosingles.py:51-66 | the end of the loop body updates the four loop variables as one scan step does |
| `InekoSearch.Buscar` | tiendas/inekosingles.py:12-99 | `buscar` gives the record the search specification describes |
| `GameOfMagicSearch.WordsOf` | tiendas/gameofmagicsingles.py:28-36 | every word found is non-empty and made only of word characters |
| `GameOfMagicSearch.EmptyQueryMatches` | tiendas/gameofmagicsingles.py:28-38 | a query without any word character, the empty one included, matches every title |
| `GameOfMagicSearch.SameWordsMatch` | tiendas/gameofmagicsingles.py:36-38 | a title with the same words as the query, in any case, matches it |
| `GameOfMagicSearch.CentsToPesos` | tiendas/gameofmagicsingles.py:46-48 | a variant price of c cents written with "$" and "," separators is read as c // 100 pesos |
| `GameOfMagicSearch.BestSpec` | tiendas/gameofmagicsingles.py:44-65 | a product has a price exactly when some available variant has a readable price; that price is the least foil price when some foil variant has one, and otherwise the least of the other prices |
| `GameOfMagicSearch.ReadChips` | tiendas/gameofmagicsingles.py:41-56 | the variant loop collects exactly the readable prices of the available foil variants and of the other available variants, in order |
| `GameOfMagicSearch.SearchSpec` | tiendas/gameofmagicsingles.py:13-97 | the record says "Sí" exactly when the search answered, some product has a title holding every query word and a priced available variant, and the first such product has a link; it then carries that product's name, its best price as "$" + ","-grouped pesos + " CLP", and its absolute link; otherwise it is the "No" record for the query at the search address |
| `GameOfMagicSearch.NoneQualifies` | tiendas/gameofmagicsingles.py:78-85 | with no qualifying product the record is "No" for the query at the search address |
| `GameOfMagicSearch.Examine` | tiendas/gameofmagicsingles.py:31-65 | the loop body gives a price exactly when the product qualifies, and that price is the product's best |
| `GameOfMagicSearch.FindQualifying` | tiendas/gameofmagicsingles.py:30-76 | the product loop stops at the first qualifying product, with its best price |
| `GameOfMagicSearch.Buscar` | tiendas/gameofmagicsingles.py:13-97 | `buscar` gives the record the search specification describes |
| `Magic4EverSearch.RowPrice` | tiendas/magic4ever_scraper.py:44-45 | the price raises exactly when the text has no digit; otherwise it is the number formed by all of its digits |
| `Magic4EverSearch.AnyPositiveSpec` | tiendas/magic4ever_scraper.py:48-52 | availability is yes exactly when some option has a positive value and every option before it has a value; it raises only at an option whose value is not an integer; with every value readable it is whether some value is positive |
| `Magic4EverSearch.ReadRowKeeps` | tiendas/magic4ever_scraper.py:31-61 | every entry kept comes from a row with at least five cells and a title link; the entry has that link's href, its stripped title holding the query, the digits of the price cell, and is available exactly when the row has a select with a positive option |
| `Magic4EverSearch.ReadRows` | tiendas/magic4ever_scraper.py:28-61 | the row loop gives the entries of the rows in order, or raises where some row raises |
| `Magic4EverSearch.ChooseSpec` | tiendas/magic4ever_scraper.py:72-77 | the chosen entry is one of the entries; when some entry is available, the chosen one is available and no available entry is cheaper; otherwise no entry is cheaper |
| `Magic4EverSearch.PriceTextRoundTrip` | tiendas/magic4ever_scraper.py:83 | a price shown as "$" with "." thousands separators is read back as the same number |
| `Magic4EverSearch.SearchSpec` | tiendas/magic4ever_scraper.py:63-85 | with no row whose title holds the query the record is "No" at the search address; otherwise it is the chosen entry, "Sí" exactly when that entry is available, with its title, its shown price and its link |
| `Magic4EverSearch.EntriesMatch` | tiendas/magic4ever_scraper.py:55-61 | every entry collected has a title holding the query, ignoring case |
| `Magic4EverSearch.Buscar` | tiendas/magic4ever_scraper.py:11-97 | `buscar` gives the record the search function describes, the "No" record when the request raised or there is no product table |
| `HunterSearch.Chosen` | tiendas/huntercardtcg.py:36-47 | a chosen block is one of the blocks and is eligible: it has a title that says English |
| `HunterSearch.ChosenSpec` | tiendas/huntercardtcg.py:36-47 | nothing is chosen exactly when no block is eligible; when some eligible block is foil, the chosen one is an eligible foil block and no earlier block is; otherwise the chosen one is the first eligible block |
| `HunterSearch.SearchSpec` | tiendas/huntercardtcg.py:12-81 | the record is "Sí" exactly when the search answered with some block, some block is eligible and the chosen one has a link; its product is then the chosen block's English title, a foil one whenever some eligible block is foil; every other outcome is the "No" record for the query at the search address |
| `HunterSearch.Pick` | tiendas/huntercardtcg.py:36-47 | the loop keeps the first eligible block and stops at the first eligible foil one, giving exactly the chosen block |
| `HunterSearch.Buscar` | tiendas/huntercardtcg.py:12-81 | `buscar` gives the record the search function describes |
| `Patterns.Tokens` | List_Bloodmoongames_single.py:140 | every match `re.findall` returns is non-empty, starts with a start-class character and continues with continuation-class characters |
| `Patterns.TokensNone` | List_Huntercardtcg_Single.py:63 | `re.findall` finds nothing exactly when no character can start a match |
| `Patterns.SearchWordSpec` | List_Bloodmoongames_single.py:163 | the case-insensitive whole-word search succeeds exactly when the word occurs at some index with a word boundary on both sides |
| `Patterns.RemoveParenGroupsNoGroup` | List_Bloodmoongames_single.py:164 | after deleting every whitespace-led parenthesised group, no "(" is left with a ")" after it |
| `Patterns.RemoveParenGroupsNoOpen` | List_Huntercardtcg_Single.py:46 | text without "(" is left unchanged |
| `Patterns.RemoveParenGroupsConcat` | List_Bloodmoongames_single.py:164 | a prefix without "(" is kept, unless its trailing blanks run into a "(" that opens a group, and the rest is cleaned on its own |
| `Patterns.RemoveParenGroupsGroup` | List_Bloodmoongames_single.py:164 | a group " (g)" is one whole match, and the scan goes on after it |
| `Patterns.CollapseSpacesKeeps` | List_Bloodmoongames_single.py:168 | text whose whitespace is already single blanks is left unchanged |
| `Patterns.CollapseStripSingleSpaced` | List_Bloodmoongames_single.py:168 | collapsing whitespace runs to one blank and stripping leaves only single blanks between non-blank text |
| `Patterns.AsciiFold` | List_Bloodmoongames_single.py:167 | the decomposed and ASCII-encoded text holds only ASCII characters |
| `Patterns.AsciiFoldAscii` | List_Bloodmoongames_single.py:167 | ASCII text is left unchanged |
| `Patterns.SpacesToChars` | List_Huntercardtcg_Single.py:148 | replacing whitespace runs by a character keeps only the non-whitespace characters of the text and that character |
| `Text.StripSpec` | idintificador.py:10 | `strip` removes only whitespace, from both ends, and leaves none there |
| `Text.NormalizeSpacesIdempotent` | Lista_Cartas.py:19-20 | cleaning a text twice is cleaning it once |
| `Text.NormalizeSpacesWords` | Lista_Cartas.py:19-20 | cleaning keeps the words of the text, in order |
| `Text.GroupedNatDigits` | List_Huntercardtcg_Single.py:29 | removing the separators from a thousands-grouped number gives back its decimal digits |
| `Text.GroupedNatShape` | List_PayToWin_Foil_Single.py:17 | a grouped number has a separator exactly every three digits from the right, and is "0" only for zero |
| `Offers.NotFound` | tiendas/rivendelelconcilio.py:89-97 | the record an adapter gives when it has nothing to offer is "No", with price "-", the query as product and the search address |
| `Offers.PlusSpaces` | tiendas/rivendelelconcilio.py:14 | the query in the search address has every blank replaced by "+" and nothing else changed |
| `Prompt.AskedSpec` | checkHunter.py:17-23 | the prompt settles on an answer exactly when some reply means it and every earlier reply was refused |
| `Prompt.Ask` | checkHunter.py:17-23 | the prompt loop reads replies up to and including the first accepted one, or all of them when none is accepted |
| `Seqs.ArgMin` | tiendas/rivendelelconcilio.py:64 | `min(..., key=...)` gives the first item with the least key |

## Left out

- HTTP requests, sessions, headers and the HTML and JSON parsers are not modelled. Each page is the list of records the script extracts from it. Each request is an oracle: an answer with a status code, or a failure. Where no `try` surrounds `requests.get` (List_Huntercardtcg_Single.py:82, List_PayToWin_Foil_Single.py:22, List_PiedraBruja.py:99, List_Oasis.py:26), the failure is a crash that ends the run before the CSV is written.
- Threads: the BloodMoon `ThreadPoolExecutor` is modelled as a single controller fed completions in any order. The same goes for the store threads of `buscar_en_tiendas` (buscador_cartas.py:54-64), given as the offers in completion order, and for the detail fan-out of Lista_Cartas.py:107-121, given as any reordering of the queued entries. Executor shutdown after the `return` is not modelled.
- The extra `as_completed` call at List_Bloodmoongames_single.py:295 has no effect and has no counterpart. Neither has the `page is None` branch at lines 304-305: every future the loop gets back is still in `futures`.
- The repository's description caps BloodMoon page numbers at 20000. The code has no such bound, and the model follows the code: the next page is always the highest scheduled one plus one.
- Sleeps, timeouts, retry waits, spinners, colours, `print` output, `anim_guardado` and the random messages are not modelled. Neither is the stdin timeout thread of `preguntar_pagina_inicio`; only its reply parse is.
- CSV reading and writing, pandas, `os.listdir`, `os.makedirs` and timestamped file names are not modelled. A file written is returned as its rows (or stem and rows), and a write guard as an `Option`.
- Image downloads (List_Huntercardtcg_Single.py:138-166, List_PayToWin_Foil_Single.py:78-97) are not modelled. Only the file names they compute are.
- `preguntar_si_no` of List_PayToWin_Foil_Single.py:70-76 is not modelled: it only decides whether images are downloaded.
- The mode prompt and the one-card mode of buscador_cartas.py:67-79 are not modelled. They are input, one `buscar_en_tiendas` call and `mostrar_resultados`, which is `BuscadorCartas.MostrarResultados`.
- The Google Drive login and upload (I_Have_it.py:138-185) and the calls that open files are not modelled.
- The Oasis prices divided by 100 as floats, and their "$1.234" rendering, are not modelled. Prices stay integer cents, which is all the skip rule needs.
- NFKD normalisation followed by `encode("ASCII", "ignore")` is a table for the Latin-1 range that drops every other non-ASCII character. Letters, `\w` and lower-casing cover ASCII and Latin-1 only.
- Digits are the ASCII "0" to "9" only, in `\d`, `str.isdigit`, `str.isdecimal` and `int()`. Python also accepts other Unicode digits there: `int("٣")` is 3, and "²" passes `isdigit()` but makes `int()` raise. This affects `Text.PyInt`, `Bloodmoon.LowestPrice`, `Hunter.LowestRun`, `Listing.CleanPrice`, `Magic4EverSearch.RowPrice`, `BuscadorCartas.BatchSizeSpec`, `CheckHunter.MaxParseSpec` and `IHaveIt.Pick`.
- Identificador.JoinUrl: covers absolute links with a lower-case "http://" or "https://", "//" links, paths, and query-only or fragment-only references. Not modelled: `urljoin`'s removal of "." and ".." segments; other schemes such as "ftp:"; upper-case schemes; "https:" followed by a relative path. Also not modelled: `urlunsplit` dropping an empty trailing "?" or "#", so "/card/x?" gives "https://scryfall.com/card/x" where the model keeps the "?". Also not modelled: the removal of empty segments from a relative path, so "x//card/y" gives "https://scryfall.com/x/card/y" where the model keeps "//". Also not modelled: `urlsplit` stripping leading control characters and blanks and deleting tab, CR and LF anywhere, so " /card/x" gives "https://scryfall.com/card/x" where the model gives "https://scryfall.com/ /card/x". `Identificador.JoinUrlSpec`'s "an absolute link is kept as it is" holds in the model only, not for these hrefs.
- OneRing.py, tiendas/__init__.py and the adapters tiendas/AFKStore.py, CardNexus.py, PDAChile.py, TCGMatch.py, paytowin.py, piedrabruja.py, tiendalacomarca.py, oasisgames.py, bloodmoongames.py and cartasmagicsur.py are not part of this model.
- Paging.CollectPages, Paging.CollectUntil: the ghost `last` requires that some page ends the loop. The scripts simply loop forever when no page does.
- Hunter.Scrape: requires that some page is empty or raises, as a termination bound the script does not have.
- PayToWin.Scrape: requires that some page ends the loop, as a termination bound the script does not have.
- PiedraBruja.Scrape: requires that some page ends the loop, as a termination bound the script does not have.
- Oasis.Scrape: requires that some page is empty or raises, as a termination bound the script does not have.
- Oasis.ScrapeWithRetries: requires that some page is empty after its retries, as a termination bound the script does not have.
- GameOfMagic.Scrape: requires that some page is empty, as a termination bound the script does not have.
- Comarca.Scrape: requires that some page ends the loop, as a termination bound the script does not have.
- Riven.ScrapeYear, Riven.ScrapeYears: require that every year has an empty page, as a termination bound the script does not have.
- CheckHunter.Browse, CheckCatalogue: require that some page ends the loop, as a termination bound the script does not have.
- Reassembler.Scrape: the completions are a finite list, so a run may end before the empty-page streak does. The flushed-items promise is stated for runs that stopped. Every state, stopped or not, keeps the window and release invariants.
- Riven.TotalsAddUp: the per-year totals add up to the number of cards only for distinct years. A repeated year overwrites its entry in `resumen_por_año`, as the script does.

## Findings

| source | as written | input that shows it | evidently intended | confidence | as-written member | corrected member |
|---|---|---|---|---|---|---|
| buscador_cartas.py:89-101 | "-" sets the batch size to `len(cartas)`. With an empty card list that is 0, and `range(0, 0, 0)` raises `ValueError` | an empty buscar.txt with the reply "-" | an empty list finishes with no rows | not executed | `BuscadorCartas.EmptyListCrashes` | `BuscadorCartas.ManyAgree` |
| Buscador_inekosingles.py:56-77 | after the third network failure the "Error" row is appended and `break` skips the `while ... else: continue`, so the page is processed anyway. That page is the previous card's response, or an undefined name, which adds a second "Error" row | one card whose three requests all fail on the network | one "Error" row, then the next card | not executed | `InekoBatch.NetworkFailureTwice` | `InekoBatch.AgreeWithoutGivingUp` |

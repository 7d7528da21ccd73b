# Column article generation, modelled in Dafny

This project models the article-generation core of a Rails site that publishes
"columns" (blog articles about light-cargo and other service businesses). It has
the following parts:

- **Pillar pipeline** (`GptPillarGenerator.generate_full_from_existing_column!`).
  It detects the category and genre, then runs the meta step and cleans the slug.
  Next come the intermediate save with status "creating" and the structure step.
  Finally it assembles the section-by-section body and saves it as "completed".
- **Body generator** (`GptArticleGenerator.generate_body`). It covers the
  structure step with its fall-backs to the original body and the
  introduction / H2 / H3 / conclusion assembly.
- **Body job** (`GenerateColumnBodyJob#perform`). It sends pillars to the pillar
  pipeline and every other record to `generate_body`, then marks the record
  "completed". On an exception it writes "error" and re-raises.
- **Admin controller** (`ColumnsController`). It covers the `index` and `draft`
  listings, the child counts, and the canonical-path redirect of `show`. It also
  covers `show`'s pass over the rendered HTML: span and `style` stripping, then
  `heading-N` ids. Finally it covers `approve`, `bulk_update_drafts`,
  `generate_from_selected` and `generate_gemini`.
- **Draft batch** (`GeminiColumnGenerator.generate_columns`).
- **Daily batch** (`Batch::BlogGenerator.run_daily`).
- **The `columns` table**: its defaults, its nullable columns and the unique
  index on `code`.

Every generative call (OpenAI, Gemini) is an oracle parameter, with no network
involved:

- a meta or structure call is a `Reply<T>`: no response, content that does not
  parse, or parsed data;
- text calls are a sequence of optional answers, consumed in call order.

The database is the class `Schema.Database`. It holds the rows in table order,
the id sequence and the queue of enqueued body jobs.

ActiveRecord objects are modelled with their dirty tracking (`Schema.Obj`),
because `update`/`update!` write only the attributes that changed. Two
behaviours of the code depend on this:

- When a pillar's slug is already taken, the job's `update(status: "error")`
  writes the unsaved code again. That write raises in turn from inside the
  rescue, leaving the row as it was, status included.
- When the daily batch's `update!(status: "failed")` runs on a child that was
  already "failed" when it was picked, it writes nothing, so the job's "error"
  stays.

Files:

- `wrappers.dfy`, `text.dfy`: Option and Result, and Ruby's `blank?`, `include?`
  and `Integer#to_s`.
- `keywords.dfy`: first-match lookup in a category table.
- `replies.dfy`: the oracle values.
- `assembly.dfy`: Markdown blocks.
- `schema.dfy`: the table, the unique index, dirty tracking and the database
  class.
- `slug.dfy`: the slug clean-up chain.
- `pillar.dfy`: the pillar pipeline.
- `article.dfy`: the body generator.
- `job.dfy`: the body job.
- `gemini.dfy`: the draft batch.
- `batch.dfy`: the daily batch.
- `controller.dfy`: the controller.

## Model

| member | source | states |
|---|---|---|
| Schema.NewRecord | db/schema.rb:27-43 | a new row has status "draft", article_type "cluster", service_type "cargo", and NULL body, code, parent_id, title and genre |
| Schema.Find | app/jobs/generate_column_body_job.rb:7-8 | `find_by(id:)` returns a row holding that key, or nothing exactly when no row holds it |
| Schema.FindAt | app/jobs/generate_column_body_job.rb:7 | with distinct keys, `find_by` returns the very row holding the key |
| Schema.Replace | db/schema.rb:45 | an UPDATE is rejected exactly when another row holds the record's non-null code; otherwise only the row with that key changes, and a valid table (distinct ids, unique codes) stays valid |
| Schema.Insert | db/schema.rb:45 | an INSERT is rejected exactly when some row holds the new non-null code; otherwise the record is appended |
| Schema.Merge | app/jobs/generate_column_body_job.rb:21 | a partial write changes nothing for an unchanged object, and writes the object's status exactly when the object changed it |
| Schema.SaveLoaded | db/schema.rb:39-45 | saving an object loaded from its row fails exactly when another row holds its code; otherwise its row becomes its attributes and every other row is untouched |
| Schema.SaveOnlyRow | db/schema.rb:45 | any save, however stale the object, alters only the row with its key and never moves a key |
| Schema.SaveKeepsTable | db/schema.rb:45 | a save that is not rejected keeps ids distinct and codes unique |
| Schema.StatusSaveSucceeds | lib/batch/blog_generator.rb:35 | a save that changes only the status is never rejected by the unique index |
| Schema.StatusSaveAt | app/controllers/columns_controller.rb:128 | writing the status of a freshly loaded row replaces exactly that row's status |
| Schema.Database.Save | db/schema.rb:45 | `save`/`update`: the table becomes the partial write when it is accepted and is unchanged when it is rejected; the table stays valid |
| Schema.Database.Create | app/services/gemini_column_generator.rb:31-37 | `create!` assigns the next id and appends the record, unless its code is already held |
| Schema.Database.Enqueue | app/controllers/columns_controller.rb:130 | `perform_later(id)` appends the id to the job queue |
| Text.NatToStringInjective | app/controllers/columns_controller.rb:79 | distinct indices print as distinct decimal strings |
| Keywords.FirstIndex | app/services/gpt_pillar_generator.rb:94-96 | the scan stops at the first table entry with a keyword in the text, and no earlier entry has one |
| Keywords.FirstMatch | app/services/gpt_pillar_generator.rb:94-97 | no category exactly when no entry matches; otherwise the name of the first matching entry in declaration order |
| Keywords.FirstMatchIs | app/services/gpt_article_generator.rb:102-104 | the converse: the first matching entry is the category chosen |
| Replies.Answer | app/services/gpt_pillar_generator.rb:141-143 | text call `k` takes the k-th oracle answer; calls past the oracle get no response |
| Slug.SanitizeWellFormed | app/services/gpt_pillar_generator.rb:43-48 | the cleaned slug has only `[a-z0-9-]`, no leading or trailing hyphen, and no "--" |
| Slug.SanitizeIdempotent | app/services/gpt_pillar_generator.rb:43-48 | cleaning twice is cleaning once |
| Slug.SanitizeFixesWellFormed | app/services/gpt_pillar_generator.rb:43-48 | a well-formed slug passes through the chain unchanged |
| Slug.SanitizeTitle | app/services/gpt_pillar_generator.rb:43-48 | words of `[a-z0-9]` after downcasing, separated by single spaces and followed by dropped punctuation, become the words joined by single hyphens ("Cargo Partner Guide!!" to "cargo-partner-guide") |
| Slug.HyphenateRunsSlugChars | app/services/gpt_pillar_generator.rb:46 | after the kept-character filter, turning white-space runs into hyphens leaves only `[a-z0-9-]` |
| Slug.SqueezeShape | app/services/gpt_pillar_generator.rb:47 | squeezing hyphen runs leaves no "--" and keeps the character class |
| Slug.TrimHyphensShape | app/services/gpt_pillar_generator.rb:48 | dropping one edge hyphen from each end of squeezed text gives a well-formed slug |
| Slug.StripKeeps | app/services/gpt_pillar_generator.rb:45 | `strip` keeps only characters that the filter kept |
| Slug.KeepSlugCharsKept | app/services/gpt_pillar_generator.rb:44 | the filter keeps text made only of `[a-z0-9\s-]` unchanged |
| Slug.HyphenateJoin | app/services/gpt_pillar_generator.rb:46 | single spaces between words become single hyphens |
| Slug.CleanCodeShape | app/services/gpt_pillar_generator.rb:43-50 | the saved slug is never empty and is well formed; it is `article-<id>` exactly when the cleaned code is empty, and the cleaned code otherwise |
| Slug.EmptyCodeFallsBack | app/services/gpt_pillar_generator.rb:43-50 | a nil or empty generated code gives `article-<id>` |
| Slug.FallbackWellFormed | app/services/gpt_pillar_generator.rb:50 | `article-<id>` is itself a well-formed slug |
| Slug.WellFormedBlank | app/services/gpt_pillar_generator.rb:50 | a cleaned slug is `blank?` exactly when it is empty |
| PillarGenerator.DetectCategory | app/services/gpt_pillar_generator.rb:92-98 | "その他" exactly when no keyword of any entry occurs in "title keyword genre choice"; otherwise the first entry, in declaration order, with a keyword in that text |
| PillarGenerator.GenreNeverVender | app/services/gpt_pillar_generator.rb:10-34 | the saved genre is one of security, cargo, cleaning, app, construction or other; "vender" is unreachable |
| PillarGenerator.SectionBlocksAt | app/services/gpt_pillar_generator.rb:71-75 | section `i` is its `## ` heading followed by the answer to text call `i + 1`, or "（コンテンツ生成エラー）" when that call gave nothing |
| PillarGenerator.PillarHeadings | app/services/gpt_pillar_generator.rb:71-72 | the headings of the body are exactly the outline's H2 titles, in order |
| PillarGenerator.AssembleBody | app/services/gpt_pillar_generator.rb:68-78 | the `+=` loop builds the introduction, the sections, the conclusion and the auto-ids directive, with `outline + 2` text calls |
| PillarGenerator.GenerateFullFromExistingColumn | app/services/gpt_pillar_generator.rb:30-88 | the method on the database ends in the table, the object and the outcome of the whole-run function |
| PillarGenerator.BlankTitleRaisesFirst | app/services/gpt_pillar_generator.rb:31 | a blank title raises whatever the oracle would answer, and nothing is written |
| PillarGenerator.NoMetaLeavesRecord | app/services/gpt_pillar_generator.rb:39-40 | missing or unparsable meta raises before the intermediate save; the table and the object are as they were |
| PillarGenerator.PillarCompletes | app/services/gpt_pillar_generator.rb:43-84 | a successful run writes the cleaned slug, meta fields, category, genre, "pillar", the assembled body and "completed" to that row only; an empty outline is accepted |
| PillarGenerator.PillarSlugTaken | app/services/gpt_pillar_generator.rb:53-61 | a slug held by another row makes the intermediate `update!` raise before anything is written |
| PillarGenerator.PillarStructureFails | app/services/gpt_pillar_generator.rb:53-65 | a missing structure raises after the intermediate save: the row keeps the meta attributes, status "creating" and its old body |
| ArticleGenerator.DetectCategory | app/services/gpt_article_generator.rb:99-107 | "その他" for a blank keyword; otherwise "その他" exactly when no entry matches the keyword alone, else the first matching entry |
| ArticleGenerator.DetectCategoryExample | app/services/gpt_article_generator.rb:99-107 | "警備の現場" holds keywords of "警備" and "建設" and gives "警備" |
| ArticleGenerator.ContentBlocksTexts | app/services/gpt_article_generator.rb:71-80 | per-H3 content blocks carry no heading, and block `j` is the answer to call `k + j` or "（<name>生成失敗）" |
| ArticleGenerator.ArticleHeadings | app/services/gpt_article_generator.rb:68-80 | the code writes only the outline's `## ` H2 lines, one per entry and in order; it writes no H3 heading |
| ArticleGenerator.ArticleProse | app/services/gpt_article_generator.rb:68-83 | the j-th content block is the answer to call `j + 1` (call 0 is the introduction) or the sentinel naming that call's H3 or H2 |
| ArticleGenerator.CallCount | app/services/gpt_article_generator.rb:68-83 | the section calls number, per entry, the H3 count when H3s are present and 1 otherwise |
| ArticleGenerator.FallBacks | app/services/gpt_article_generator.rb:27-54 | without an API key it returns nil and makes no call; a missing response, a parse failure, a missing key, fewer than 3 entries, or a non-list value shorter than 3 return the original body and make no content call |
| ArticleGenerator.NotEntriesRaisesAfterIntro | app/services/gpt_article_generator.rb:48-69 | a "structure" value of length 3 or more that is not a list of entries passes the length test; the introduction is requested, then `each` raises before any section call |
| ArticleGenerator.H3Contents | app/services/gpt_article_generator.rb:72-76 | the H3 loop appends one content block per H3, in order |
| ArticleGenerator.Section | app/services/gpt_article_generator.rb:69-80 | one section is its `## ` line and its content calls, named by its H3s or by its H2 title |
| ArticleGenerator.AssembleArticle | app/services/gpt_article_generator.rb:59-93 | the `+=` loops build the article function, and the calls made are the introduction, the section calls in order and the conclusion |
| ArticleGenerator.GenerateBody | app/services/gpt_article_generator.rb:26-94 | the method returns the value or the exception of `generate_body`, and the content calls it makes: none on a fall-back, only the introduction when a non-list structure raises, otherwise introduction, section calls and conclusion |
| BodyJob.PerformRun | app/jobs/generate_column_body_job.rb:6-24 | an unknown id is a no-op; a known id always ends normally or by re-raising |
| BodyJob.Perform | app/jobs/generate_column_body_job.rb:6-24 | the job on the database ends in the table and the outcome of the job function |
| BodyJob.NonPillarCompletes | app/jobs/generate_column_body_job.rb:16-17 | a non-pillar record is saved "completed" with whatever `generate_body` returned, whatever its earlier status |
| BodyJob.NoApiKeyClearsBody | app/jobs/generate_column_body_job.rb:16-17 | without an API key the record is completed with a nil body |
| BodyJob.NonPillarRaises | app/jobs/generate_column_body_job.rb:19-23 | when `generate_body` raises, the record gets status "error" only and the exception is re-raised |
| BodyJob.PillarEarlyError | app/jobs/generate_column_body_job.rb:12-23 | a pillar whose run raises before the meta save gets status "error" alone |
| BodyJob.PillarStructureError | app/jobs/generate_column_body_job.rb:19-23 | after the intermediate save, a failed structure step leaves the meta attributes with "error" in place of "creating" |
| BodyJob.PillarSlugTakenUntouched | app/jobs/generate_column_body_job.rb:19-23 | with a taken slug the rescue's `update` writes the dirty code again and raises in turn, so the row is left exactly as it was and the job ends with that unique-index exception |
| BodyJob.PillarFinishes | app/jobs/generate_column_body_job.rb:12-13 | a successful pillar run completes the row with the pillar body |
| BodyJob.NonPillarOnlyRow | app/jobs/generate_column_body_job.rb:6-24 | a job on a non-pillar writes only that record's row |
| GeminiGenerator.ReplyAt | app/services/gemini_column_generator.rb:25 | iteration `i` takes the i-th reply; iterations past the oracle get no text |
| GeminiGenerator.DraftRecord | app/services/gemini_column_generator.rb:31-37 | a created record has status "draft", `choice` set to the category, the draft's title, description and keyword, and schema defaults elsewhere (no parent, "cluster", no body) |
| GeminiGenerator.FirstRaise | app/services/gemini_column_generator.rb:25-45 | the first iteration whose call raises outside the rescue, or the count when none does |
| GeminiGenerator.DraftsUpTo | app/services/gemini_column_generator.rb:13 | no more records than iterations |
| GeminiGenerator.Batch | app/services/gemini_column_generator.rb:9-47 | the batch returns `batch_count` itself or aborts, and stores at most `batch_count` drafts |
| GeminiGenerator.DraftsAllParsed | app/services/gemini_column_generator.rb:28-37 | when every call parses, each iteration stores its draft, in order |
| GeminiGenerator.NothingParsed | app/services/gemini_column_generator.rb:25-45 | when no call gives a parsable draft, nothing is stored |
| GeminiGenerator.NonPositiveCount | app/services/gemini_column_generator.rb:13 | a count of zero or below runs nothing and still returns the count |
| GeminiGenerator.GenerateColumns | app/services/gemini_column_generator.rb:9-47 | the loop appends exactly the drafts of the batch function after the existing rows, which it leaves alone |
| DailyBatch.MarkFailedOnlyRow | lib/batch/blog_generator.rb:35 | the rescue's status write is never rejected and changes only the child's row |
| DailyBatch.JobKeepsTable | lib/batch/blog_generator.rb:32 | the job keeps the table valid |
| DailyBatch.RunChild | lib/batch/blog_generator.rb:31-37 | one iteration is the job followed, when it re-raised, by the "failed" write |
| DailyBatch.ReplayStep | lib/batch/blog_generator.rb:16-39 | one more iteration extends the fold by one `DailyStep` on the picked child, or by nothing for a skip, and records the picked id |
| DailyBatch.ProgressPicked | lib/batch/blog_generator.rb:31-37 | running the picked eligible child keeps the fold, the picked ids and the untouched rows in step |
| DailyBatch.ProgressSkipped | lib/batch/blog_generator.rb:23-26 | skipping when no child is eligible keeps the table and the run record as they were |
| DailyBatch.RunPicked | lib/batch/blog_generator.rb:31-37 | the picked child's job runs and the table becomes the fold with that pick added |
| DailyBatch.RunIteration | lib/batch/blog_generator.rb:16-39 | an iteration picks an eligible child and runs it when one exists, and skips only when none does |
| DailyBatch.RunDaily | lib/batch/blog_generator.rb:4-43 | without a pillar nothing runs and nothing changes; otherwise there are exactly `daily_count` iterations (none when it is negative); each picks a child eligible in the table it meets (a parent, "child" or "cluster", no body) and skips only when none is eligible; the table ends as the fold of `DailyStep` over the picks, the ids returned are the ones picked, every id run was eligible at the start and rows never picked are unchanged |
| DailyBatch.EligibleChildRuns | lib/batch/blog_generator.rb:16-32 | when a child is eligible at the start, the first iteration runs a job on an eligible child and its id heads the ids returned |
| DailyBatch.FailedOverwritesError | lib/batch/blog_generator.rb:31-37 | a job that raises on a child leaves it "failed", overwriting the job's "error" |
| DailyBatch.StaleFailedKeepsError | lib/batch/blog_generator.rb:35 | a child already "failed" when picked keeps the job's "error" |
| DailyBatch.NoKeyStaysEligible | lib/batch/blog_generator.rb:18-32 | without an API key the child is completed with no body and stays eligible |
| DailyBatch.GeneratedLeavesPool | lib/batch/blog_generator.rb:18-32 | a child that gets a body leaves the eligible set |
| DailyBatch.NoEligibleRunsNothing | lib/batch/blog_generator.rb:23-26 | with no eligible child every iteration is skipped and nothing changes |
| ColumnsController.InsertDesc | app/controllers/columns_controller.rb:23 | insertion keeps a list in descending timestamp order and adds exactly the one record |
| ColumnsController.OrderDesc | app/controllers/columns_controller.rb:23 | `order(...: :desc)` is a descending permutation of its input |
| ColumnsController.Where | app/controllers/columns_controller.rb:8 | `where` keeps exactly the rows satisfying the condition, each as often as in the table |
| ColumnsController.Index | app/controllers/columns_controller.rb:8-23 | the listing holds exactly the records with a status other than "draft" and a non-empty body that pass every present filter (status, article_type, the mapped genres), newest `updated_at` first |
| ColumnsController.Ids | app/controllers/columns_controller.rb:25 | `map(&:id)` keeps order and length |
| ColumnsController.ChildCount | app/controllers/columns_controller.rb:28-32 | a parent's count is bounded by the table |
| ColumnsController.ChildCountPositive | app/controllers/columns_controller.rb:28-32 | a parent's count is positive exactly when some row is its child and has a non-empty body |
| ColumnsController.ChildCounts | app/controllers/columns_controller.rb:28-35 | the map has an entry exactly for listed ids with at least one child that has a body, holding that count; no ids give `{}` |
| ColumnsController.IndexPage | app/controllers/columns_controller.rb:6-36 | every counted parent is a listed record |
| ColumnsController.DraftStatusListsNothing | app/controllers/columns_controller.rb:8-10 | asking the index for status "draft" lists nothing |
| ColumnsController.DraftList | app/controllers/columns_controller.rb:122 | the draft listing is exactly the records with status "draft" or a NULL or empty body, newest `created_at` first |
| ColumnsController.ListingsSplit | app/controllers/columns_controller.rb:122 | a record with a status is in exactly one of the two listings; a record with a NULL status and a body is in neither |
| ColumnsController.CanonicalPath | app/controllers/columns_controller.rb:43-49 | a genre without a route genre gives `column_path`; a matching genre gives `/<genre>/columns/<code>` when the route accepts it, and no path otherwise |
| ColumnsController.ContainedGenreFails | app/controllers/columns_controller.rb:43-46 | a genre that only contains a route genre ("app-cargo") passes `show`'s test but has no nested path |
| ColumnsController.StripSpans | app/controllers/columns_controller.rb:71 | every span tag is dropped and every other token kept |
| ColumnsController.WithoutStyle | app/controllers/columns_controller.rb:72 | exactly the non-`style` attributes remain |
| ColumnsController.StripStyles | app/controllers/columns_controller.rb:72 | tokens stay in place and opening tags lose their `style` attributes only |
| ColumnsController.SanitizeHtml | app/controllers/columns_controller.rb:70-72 | no span tag and no `style` attribute is left |
| ColumnsController.Level | app/controllers/columns_controller.rb:79 | a heading's level is its tag digit, 2 to 4 |
| ColumnsController.HeadingIdsDistinct | app/controllers/columns_controller.rb:78-79 | distinct indices give distinct `heading-N` ids |
| ColumnsController.FindClose | app/controllers/columns_controller.rb:75 | the lazy match stops at the first closing tag of the same name |
| ColumnsController.NumberedIds | app/controllers/columns_controller.rb:75-81 | the markup keeps its length; the entries carry ids `heading-0`, `heading-1`, ... in document order, each with its tag's level |
| ColumnsController.NumberedPositions | app/controllers/columns_controller.rb:75-81 | every position of the output is the input token, or the input's bare heading rewritten with one of the ids handed out |
| ColumnsController.NumberedEntries | app/controllers/columns_controller.rb:75-81 | each entry belongs to a rewritten heading of the input, with its tag, inner markup and closing tag |
| ColumnsController.HeadingIdsUnique | app/controllers/columns_controller.rb:78-80 | no two entries share an id |
| ColumnsController.NoHeadingUnchanged | app/controllers/columns_controller.rb:75-81 | markup without a bare heading passes through unchanged and yields no entry |
| ColumnsController.FirstClose | app/controllers/columns_controller.rb:75 | the search returns the first closing tag at or after a position |
| ColumnsController.NumberHeadings | app/controllers/columns_controller.rb:74-81 | the scan with its running index `@headings.size` computes the heading pass |
| ColumnsController.MarkdownSource | app/controllers/columns_controller.rb:67 | a present body is rendered; otherwise the placeholder heading |
| ColumnsController.Children | app/controllers/columns_controller.rb:56-64 | a pillar's children are exactly its published children, newest first; other records have none |
| ColumnsController.Show | app/controllers/columns_controller.rb:39-82 | no path is an error; a different request path is a 301 to the canonical path; otherwise the page holds the children and the numbered, sanitised HTML |
| ColumnsController.ApproveEffect | app/controllers/columns_controller.rb:126-133 | approving a record that is not approved writes exactly its status and enqueues it once; an approved record is left alone |
| ColumnsController.ApproveIdempotent | app/controllers/columns_controller.rb:126-133 | approving twice is approving once |
| ColumnsController.Approve | app/controllers/columns_controller.rb:126-133 | an unknown id is a 404 with nothing changed; otherwise the approval rule is applied |
| ColumnsController.ApproveAll | app/controllers/columns_controller.rb:146-151 | bulk approval keeps the number of rows |
| ColumnsController.PendingIds | app/controllers/columns_controller.rb:146-151 | bulk approval enqueues no more ids than rows |
| ColumnsController.PendingIdsExactly | app/controllers/columns_controller.rb:146-151 | an id is enqueued exactly when its record is selected and not yet approved |
| ColumnsController.ApproveAllIdempotent | app/controllers/columns_controller.rb:146-151 | a second bulk approval changes no row and enqueues nothing |
| ColumnsController.ApproveNone | app/controllers/columns_controller.rb:146-151 | no ids change nothing |
| ColumnsController.BulkMatchesSingle | app/controllers/columns_controller.rb:146-151 | bulk approval of one id does what `approve` does |
| ColumnsController.SinglePending | app/controllers/columns_controller.rb:146-151 | with distinct keys, one selected id is pending exactly when its record is not approved |
| ColumnsController.Remaining | app/controllers/columns_controller.rb:154 | `destroy_all` leaves exactly the rows whose key is not selected |
| ColumnsController.CountIn | app/controllers/columns_controller.rb:152 | the count is bounded by the table |
| ColumnsController.CountApproved | app/controllers/columns_controller.rb:152 | the count taken after approving equals the count of the selection |
| ColumnsController.RemainingValid | app/controllers/columns_controller.rb:154 | deleting rows keeps the table valid |
| ColumnsController.ApproveAt | app/controllers/columns_controller.rb:149-150 | one approval writes that row's status and enqueues its id |
| ColumnsController.ApproveEach | app/controllers/columns_controller.rb:146-151 | the loop ends with the bulk-approved rows and the pending ids enqueued in table order |
| ColumnsController.BulkUpdateDrafts | app/controllers/columns_controller.rb:136-159 | no ids: nothing changes; approve: the bulk rule and the selection's count; delete: the unselected rows remain; other actions: nothing changes |
| ColumnsController.SelectedPillars | app/controllers/columns_controller.rb:191 | only selected ids are enqueued |
| ColumnsController.SelectedPillarsExactly | app/controllers/columns_controller.rb:191-201 | an id is enqueued exactly when it is selected and keys a pillar |
| ColumnsController.GenerateFromSelected | app/controllers/columns_controller.rb:183-205 | no ids or no pillars enqueue nothing; otherwise one job per selected pillar, in table order, and the table is untouched |
| ColumnsController.GenerateGemini | app/controllers/columns_controller.rb:114-118 | the batch runs with `params[:batch] \|\| 20`: the batch's drafts are appended after the existing rows, which stay as they were; the reported count is the requested count, not the number created |

## Left out

- HTTP transport (`call_gpt_api`, `post_to_gemini`), API keys other than
  `GPT_API_KEY`, timeouts, SSL and JSON parsing. They are replaced by oracle
  values: no response, unparsable content, or parsed data.
- Prompt texts (`*_prompt`, `service_profile`). They are opaque strings that
  only the oracle sees, and `detect_category`'s result in the body generator
  only reaches those prompts.
- Kramdown's Markdown-to-HTML conversion. `Show` takes the converter as a
  parameter that yields an HTML token stream. The regular expressions of the
  HTML pass are modelled on tokens, not on characters. An opening tag whose
  name starts with "span" is one that `<span[^>]*>` removes.
- `sleep`, `puts` and logger output: timing and logging only.
- ActiveJob and Sidekiq: `perform_later` appends to the queue. Retries are not
  in these files.
- `ORDER BY RANDOM()` in the daily batch: the model picks any eligible child.
  SQL's order among equal timestamps: `OrderDesc` keeps one admissible order.
- app/jobs/generate_child_columns_job.rb and `generate_from_pillar`. The job
  passes `pillar_id:`, which `generate_columns` does not accept, so it always
  raises before doing anything.
- `generate_pillar`: it calls `GptPillarGenerator.generate_full_article`, which
  does not exist.
- The CRUD actions (`new`, `create`, `edit`, `update`, `destroy`), breadcrumbs,
  flash messages and strong parameters.
- The routes file, except the anchored genre constraint (config/routes.rb:24)
  that `CanonicalPath` models.
- `set_column`'s friendly_id lookup: `Show` takes the record found, and
  `Approve` looks it up by id. The `Column` model is not part of this model;
  `GENRE_MAPPING` is a parameter, and `approved?` is read as status
  "approved".
- Ruby's Unicode `downcase`: `Slug.Downcase` lowers ASCII letters only. Any
  other letter is then removed by the `[^a-z0-9\s\-]` filter either way,
  except letters whose Unicode lower case is ASCII (such as the Kelvin sign).
- Timestamps are stored values, not maintained on save. `String#to_i` of
  `params[:batch]` is taken as already done. The ids of `column_ids` are
  integers.
- Non-2xx Gemini responses and replies without a text part are both "no text".
- ColumnsController.CanonicalPath: `column_path` is the parameter `toParam`
  (the friendly slug or the id). No URL escaping is modelled.
- GeminiGenerator.DraftsUpTo: its own contract states only the bound; the
  stored drafts are characterised by `DraftsAllParsed`, `NothingParsed` and
  `GenerateColumns`.
- Where the description of the system and the code differ, the code is
  followed:
  - The daily batch's comment speaks of approved pillars, but the gate counts
    every pillar whatever its status.
  - `index`'s comment promises only non-draft records with a body, but a
    record with a NULL status is excluded too (SQL `<>`).
  - The job's non-pillar path completes a record even when `generate_body`
    returned nil or the original body.

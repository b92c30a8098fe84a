# SwiftVisa core, modelled in Dafny

SwiftVisa is a FastAPI service that answers visa-eligibility questions. It
draws on a Chroma vector store of cleaned visa-policy documents and, when an
OpenAI key is usable, a language model. Retrieval, embedding and the model
itself are library code. What the service decides for itself is modelled
here:

- **The credential gate** (`Answering`). `USE_OPENAI` / `LLM_PROVIDER`
  decide whether the model may be consulted.
- **The answer path** (`Answering`):
  - `run_rag_with_llm` raises unless the gate is open.
  - `run_retrieval_only` puts the best passage, stripped, into a fixed
    template.
  - `/check-eligibility` tries the model and falls back to retrieval.
  - `/analyze-profile` uses the same gate, has no fallback, and turns every
    failure into an error body.
- **Previews** (`Previews`). `/vectorstore/query` cuts passages to 500
  characters and adds `...`. `/visa-requirements` cuts them to 800
  characters.
- **File-name listings** (`Listings`). `/countries`, `/visa-types/{country}`
  and the counting loop of `/stats` read `_`-separated fields of the names
  of the cleaned corpus files. They collect them into sets and return them
  sorted. `sorted` on strings is modelled in `SortedStrings`.
- **The corpus cleaner** (`CleanData`).
  - `clean_text` collapses whitespace runs, drops non-ASCII characters and
    strips the ends.
  - The script's loop cleans every `.txt` file under the same name.
- **Settings** (`Config`):
  - the environment flags;
  - the `ALLOWED_ORIGINS` extension;
  - the `get_info` summary;
  - `validate`.

How the outside world is represented:

- The retriever, the question-answering chain and the store's similarity
  search are function parameters. Each returns `Ok(value)` or
  `Err(message)`, where the message is `str(e)` of the exception.
- The process environment is a `map<string, string>`.
- The directories that exist are a `set<string>`.
- A directory listing is `Option<seq<string>>`, with `None` when the
  directory does not exist.
- The clock reading is a `now` string.
- Python's `str` helpers that the core relies on are written out in
  `PyStrings`. They are `split`, `join`, `strip`, `replace(pat, "")`, `in`,
  `startswith`, `endswith` and `lower`. `\s` and `str.isspace` are the same
  whitespace set.

Under "Model", a member is named with its module (file):

| module | file |
|---|---|
| `PyStrings` | `pystrings.dfy` |
| `SortedStrings` | `sorting.dfy` |
| `CleanData` | `clean_data.dfy` |
| `Config` | `config.dfy` |
| `Documents` | `documents.dfy` |
| `Answering` | `answering.dfy` |
| `Previews` | `previews.dfy` |
| `Listings` | `listings.dfy` |
| `Results` | `results.dfy` |

## Model

| member | source | states |
|---|---|---|
| Answering.UseOpenAI | main.py:49 | the gate is open exactly when the key is set, longer than 20 characters, starts with `sk-`, and no five-character window of it lower-cases to `your-`; the separate non-empty test adds nothing |
| Answering.LlmProvider | main.py:49-53 | the provider is `"openai"` exactly when the gate is open, and `"none"` exactly when it is closed |
| Answering.PlaceholderKeyRejected | main.py:49 | a key holding `your-` in any letter case never opens the gate |
| Answering.GateImpliesConfigured | main.py:49 | whenever the gate opens, `get_info` reports OpenAI as configured and an LLM as available |
| Answering.ConfiguredPlaceholderKeyIsGated | config.py:110 | `openai_configured` is weaker than the gate: `sk-your-key` and a 26-character placeholder count as configured, yet the gate stays closed |
| Answering.RunRagWithLlm | main.py:133-148 | with the gate closed it fails with `No LLM configured`; with it open it returns or raises what the chain does |
| Answering.RunRetrievalOnly | main.py:151-176 | fails exactly when the retriever fails, with its message; no passage gives the fixed not-found text; otherwise the first passage, stripped, goes into the excerpt template |
| Answering.RetrievalOnlyUsesFirstPassage | main.py:161-163 | two retrievers that agree on the first passage give the same answer: later passages have no effect |
| Answering.ExcerptQuotesPassage | main.py:163-172 | the stripped passage occurs verbatim in the answer and in the passage, and can be read back from between the header and the footer |
| Answering.NotFoundIsNoExcerpt | main.py:157-159 | the not-found message differs from every excerpt |
| Answering.Excerpt | main.py:166-173 | the excerpt starts with the fixed header, ends with the fixed footer, has exactly their length plus the stripped passage's, and contains the stripped passage |
| Answering.EligibilityQuery | main.py:186-190 | the `/check-eligibility` question quotes all five fields of the form |
| Answering.ProfileQuery | main.py:365-373 | the `/analyze-profile` question quotes all five fields of the form |
| Answering.CheckEligibility | main.py:183-219 | if the gate is open and the model answers, the model's text comes back with provider `openai`; otherwise the retrieval-only answer comes back with provider `retrieval-only`; an error escapes only when the retriever fails |
| Answering.NoKeyNeverConsultsLlm | main.py:212-219 | with the gate closed the response does not depend on the model, and the provider is `retrieval-only` |
| Answering.LlmFailureFallsBack | main.py:202-211 | with the gate open and a failing model, the response is exactly the one given without a key |
| Answering.ProviderNamesPath | main.py:193-219 | every successful response names the path that produced its text: `openai` with the model's output, or `retrieval-only` with the retrieval answer |
| Answering.AnalyzeProfile | main.py:359-400 | never raises and always echoes the profile; the gate chooses the model or retrieval, and any failure becomes an error body; only the retrieval path carries the note |
| Answering.AnalyzeProfileHasNoFallback | main.py:374-382 | with the gate open, a failing model and a working retriever, `/analyze-profile` reports an error while `/check-eligibility` answers by retrieval |
| Previews.Preview | main.py:298 | a preview is at most 503 characters; a passage of up to 500 characters is shown whole; a longer one shows its first 500 characters followed by `...` |
| Previews.QueryVectorstore | main.py:285-311 | an empty query is refused without a search; a failing search is reported with the query; otherwise hit `i` has rank `i+1`, the preview of passage `i`, its metadata and full length, and the count equals the number of passages |
| Previews.Take | main.py:422 | Python's `s[:n]`: the whole of `s` when it has at most `n` characters, otherwise exactly its first `n` characters |
| Previews.RequirementsQuery | main.py:406 | the `/visa-requirements` question names the visa type and the destination and ends with `?` |
| Previews.GetVisaRequirements | main.py:403-439 | a failing search gives an error body; no passage gives `not_found` with its message; otherwise each passage is cut to its first 800 characters, in order, and the total equals the number of passages |
| Listings.AvailableCountries | main.py:241-259 | the result is strictly sorted; it holds a country exactly when some `.txt` name with two or more `_` fields has it as first field; the count is its length |
| Listings.VisaTypes | main.py:262-282 | the result is strictly sorted; it holds a visa type exactly when some `.txt` name starting with `country_` has it as third field once every `.txt` is removed; the count is its length |
| Listings.CountCorpus | main.py:320-333 | the document count is the number of `.txt` names; the sets hold the first and third fields of the `.txt` names with three or more fields |
| Listings.CountryOfIsPrefix | main.py:250-254 | a name is filed under country `c` exactly when it is a `.txt` name that starts with `c_` and `c` holds no `_` |
| Listings.WellFormedNameFields | main.py:252-276 | on names of the documented form, `/countries`, `/visa-types` and `/stats` read the same country and visa type |
| Listings.StatsKeepsTxtOnThirdField | main.py:326-333 | on a three-field name `a_b_c.txt`, `/visa-types` reports `c` while `/stats` counts `c.txt` |
| Listings.InnerTxtIsRemoved | main.py:273-276 | `/visa-types` deletes every `.txt`, not only the suffix: `a_b_c.txtd.txt` gives the visa type `cd`, while `/stats` reads `c.txtd.txt` |
| Listings.CountriesCountsTwoFieldNames | main.py:252-253 | a two-field name `a_b.txt` gives `/countries` the country `a`, which `/stats` does not count |
| SortedStrings.LessTransitive | main.py:257 | Python's string order is transitive |
| SortedStrings.LessTotal | main.py:257 | any two different strings are ordered one way or the other |
| SortedStrings.LessIrreflexive | main.py:257 | no string comes before itself |
| SortedStrings.Minimum | main.py:257 | returns a member of the set that comes before every other member |
| SortedStrings.SortedList | main.py:257 | `sorted(list(s))`: strictly increasing, exactly the members of `s`, and as long as `s` has members |
| CleanData.CleanText | scripts/clean_data.py:8-12 | the cleaned text is never longer than the input and has no whitespace at either end |
| CleanData.CollapseWhitespace | scripts/clean_data.py:9 | after collapsing, the text is no longer, holds only plain spaces as whitespace, never two in a row, and keeps the visible characters in order |
| CleanData.CollapseRunToOneSpace | scripts/clean_data.py:9 | a non-empty whitespace run between two words becomes exactly one space |
| CleanData.DropNonAscii | scripts/clean_data.py:10 | exactly the ASCII characters of the input remain, and the text does not grow; with DropNonAsciiKeepsAscii, each ASCII character keeps its place and its count |
| CleanData.CollapseFromFacts | scripts/clean_data.py:9 | after collapsing, the only whitespace is plain spaces, never two in a row, and the other characters are kept in order |
| CleanData.DropNonAsciiKeepsAscii | scripts/clean_data.py:10 | every selection of ASCII characters (the visible ones, the spaces, all of them) is the same sequence before and after the non-ASCII characters are dropped, so the ASCII characters keep their order and number |
| CleanData.CleanTextOfAscii | scripts/clean_data.py:8-12 | on ASCII text, cleaning is exactly collapsing whitespace runs and stripping, so the single spaces between words stay where they were |
| CleanData.CleanTextIsAscii | scripts/clean_data.py:10 | every character of the cleaned text is at most 0x7F |
| CleanData.CleanTextOnlyPlainSpaces | scripts/clean_data.py:9-11 | the only whitespace left is the plain space |
| CleanData.CleanTextKeepsVisible | scripts/clean_data.py:9-10 | the visible ASCII characters of the input all survive, in order, and everything else in the output is a plain space |
| CleanData.CollapseExample | scripts/clean_data.py:9 | collapsing leaves `a é b` unchanged |
| CleanData.DropExample | scripts/clean_data.py:10 | dropping non-ASCII characters turns `a é b` into `a  b` |
| CleanData.CleanTextCanKeepDoubleSpace | scripts/clean_data.py:9-11 | `clean_text("a é b")` is `a  b`, which holds a double space |
| CleanData.CleanTextNotIdempotent | scripts/clean_data.py:8-12 | cleaning `a  b` again changes it, so `clean_text` is not idempotent |
| CleanData.CleanCorpus | scripts/clean_data.py:14-20 | exactly the `.txt` names of the listing are written, each holding the cleaned text of the raw file of the same name; other files are left as they were |
| Config.EnvFlag | config.py:34 | a flag is on exactly when the variable is set to one of the sixteen letter-case spellings of `true`; an absent variable gives off |
| Config.LowerIsTrue | config.py:70-72 | a value lower-cases to `true` exactly when it spells `true` in some mix of letter case |
| Config.AllowedOrigins | config.py:37-46 | the three defaults come first, in order; an empty variable adds nothing; otherwise they are followed by the variable's comma-separated pieces |
| Config.CustomOriginsRoundTrip | config.py:44-46 | joining the custom origins with commas gives the variable back, and no origin holds a comma |
| Config.Load | config.py:13-72 | the defaults for absent variables: `vectorstore`, `INFO`, flags off, only the three default origins; a key is present exactly when its variable is set |
| Config.GetInfo | config.py:101-114 | `llm_available` holds exactly when some key is non-empty; `openai_configured` exactly when the OpenAI key starts with `sk-`; `gemini_configured` exactly when the Gemini key is longer than 20 characters; either of the last two implies the first |
| Config.Validate | config.py:74-99 | valid exactly when the vector store directory exists; the missing data directories are created, in order; the no-keys warning is printed only when both keys are empty, followed by the error line when invalid |
| Config.Missing | config.py:86-88 | the missing directories are exactly the listed ones that do not exist, no more of them than listed |
| Config.CreateMissing | config.py:86-88 | the directories created are exactly the missing ones, in the order they are listed |
| PyStrings.Strip | scripts/clean_data.py:11 | `str.strip()`: no whitespace at either end, whitespace only when empty, otherwise the slice between the stripped ends |
| PyStrings.StripKeepsNonSpace | scripts/clean_data.py:11 | stripping never removes a non-whitespace character |
| PyStrings.StripIsSubstring | main.py:162 | the stripped text occurs in the original |
| PyStrings.Split | main.py:252 | `str.split(sep)`: at least one piece, and no piece holds the separator |
| PyStrings.JoinSplit | config.py:46 | joining the pieces of a split gives the text back |
| PyStrings.SplitJoin | config.py:46 | splitting a join of separator-free pieces gives the pieces back |
| PyStrings.SplitNoSep | main.py:252 | a text without the separator splits into itself alone |
| PyStrings.SplitPrefix | main.py:252 | a separator-free first field followed by the separator splits off as the first piece |
| PyStrings.SplitMany | main.py:253 | a split has two pieces or more exactly when the separator occurs |
| PyStrings.RemoveAll | main.py:273 | `str.replace(pat, "")` never makes a text longer |
| PyStrings.RemoveAllSuffix | main.py:273 | removing `.txt` from `stem.txt` gives `stem` back when `stem` holds no `.` |
| PyStrings.RemoveAllAbsent | main.py:273 | a text without the pattern is left unchanged |
| PyStrings.RemoveAllConcat | main.py:273 | `replace(pat, "")` removes every occurrence: an occurrence between two texts is dropped and the rest is processed on both sides |
| PyStrings.RemoveAllNoStart | main.py:273 | a text without the first character of the pattern is left unchanged |
| PyStrings.ContainsLower | main.py:49 | `p in s.lower()` holds exactly when some window of `s` as long as `p` lower-cases to `p` |

## Left out

- The model and retrieval libraries. LangChain's question-answering chain,
  the OpenAI client, the embeddings and Chroma's search are the `Llm`,
  `Retriever` and `Search` parameters. Nothing is assumed about them.
- What the collaborators themselves guarantee is not stated. This includes
  the retriever's `k = TOP_K = 5` and `similarity_search` returning at most
  `k` passages. It is library behaviour.
- FastAPI routing, pydantic validation, CORS and the request-logging
  middleware. Also all logging calls and `logging_config.py`.
- Timestamps. `datetime.now().isoformat()` is the `now` parameter.
- The file system, as follows:
  - `os.listdir` and `os.path.exists` become a listing parameter.
  - File reads and writes become maps from name to text.
  - `os.makedirs` is the list of directories `validate` creates. Parent
    directories it would also create are not modelled.
  - UTF-8 decoding and encoding are not modelled.
- `/stats` beyond its counting loop. It has the `os.walk` size sum and the
  float rounding. Its response dict reads `USE_GEMINI`, which `main.py`
  never defines, so the handler raises after the loop.
- `/`, `/health` and the start-up code of `main.py`. They only report the
  constants modelled here or load the store.
- `int(...)` parsing of `TOP_K`, `PORT`, `WORKERS` and the rate limits, the
  string settings that have no behaviour, and `load_dotenv`.
- Config.GetInfo: leaves out the `top_k` field, because `TOP_K` parsing is
  not modelled.
- Config.AllowedOrigins: `ALLOWED_ORIGINS` is a value built once, not a class
  list extended in place. The model does not capture aliasing of that list
  by other code.
- Config.Validate: models printing as the returned `printed` lines.
- Config.EnvFlag: `lower()`, like the `lower()` of the gate, is
  ASCII-only. No character outside ASCII lower-cases to a letter of `true`
  or `your-`, so the results agree with Python's full case mapping.
- Document metadata is a `map<string, string>`. The source passes through a
  dict of arbitrary JSON values unchanged. The model copies it unchanged too,
  but with string values only.
- Previews.QueryVectorstore: takes `k` as a parameter. The request's default
  of `TOP_K = 5` when `k` is omitted is pydantic behaviour and is not modelled.
- The Streamlit launcher, the React front end, the chunking and
  vector-store scripts, and the tests.

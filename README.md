# AI video generation pipeline — verified model of its decision rules

The pipeline turns a news article into a narrated short video:

1. It resolves the article link and scrapes the article text.
2. A language model writes a script of scenes.
3. One image and one narration file are produced per scene.
4. Moviepy assembles the clips with a caption over each.

Almost all of this is glue around outside services. This project models the deterministic rules between those calls and proves what they guarantee. There are four Dafny modules, one per stage, plus a shared one:

- `Common` (`common.dfy`) holds the scene record and Python truthiness of optional strings. It also models `str(n)` for integers and `os.path.join` (POSIX), with the fact that different scene indices name different files.
- `ImageGenerator` (`image_generator.dfy`) covers:
  - the prompt builder;
  - the provider fallback chain: HuggingFace, then Cloudflare, then Pollinations, then a placeholder;
  - the Pollinations retry loop;
  - the worker cap and the per-scene job;
  - the fan-in of the thread pool into the pre-sized result list.

  The fan-in is a loop over an arbitrary completion order writing an `array`. The main theorem is that the list it produces does not depend on that order.
- `Scraper` (`scraper.dfy`) covers:
  - resolution of Google News redirect links;
  - Python's `strip`, `split` and `lower` as the paragraph filter uses them;
  - the paragraph filter, the join, the length bounds and the title fallback;
  - `scrape_article` itself, as a method with the paragraph-collecting loop.
- `VideoMaker` (`video_maker.dfy`) covers:
  - the download-if-missing-or-small rule;
  - the Devanagari test and the font choice;
  - the caption box arithmetic, with the line-drawing loop as a method;
  - the clip loop of `create_video`, which zips the scene lists, skips scenes without a picture, and raises when a narration cannot be loaded.
- `AudioGenerator` (`audio_generator.dfy`) covers voice selection with its fallback and the per-scene loop that lists narration files.

Outside calls are parameters:

- an HTTP reply is a datatype value (status, relevant body facts, or "raised");
- a per-call oracle is a function from URL, attempt number or request to reply;
- the file system's `exists` is a `string -> bool` oracle;
- success of writing a generated image, placeholder or narration is a boolean; saving a downloaded asset is one of three outcomes (saved, `open` raised, `write` raised after some bytes);
- whether the media decoder can read an existing narration file is a `string -> bool` oracle.

Two behaviours of the code worth noting:

- The worker cap (image_generator.py:185-188) is not limited by the number of scenes: one scene with a HuggingFace token still gets a pool of 4 workers.
- The placeholder write can fail (image_generator.py:41-47 and 162-163). `generate_placeholder` returns False on an exception and the caller ignores it. The tag is then still "Placeholder" and the list still holds the scene's path, a path at which no valid image need exist.

## Model

| member | source | states |
|---|---|---|
| ImageGenerator.BuildPrompt | image_generator.py:31-35 | the prompt starts with the scene's own prompt and ends with "Negative: " and the negative preset |
| ImageGenerator.PauseAfter | image_generator.py:126-133 | the 1.5 s sleep comes exactly after an exception, the 0.6 s cooldown exactly after the accepted attempt, no pause after a rejection |
| ImageGenerator.PollinationsFrom | image_generator.py:123-135 | from a given attempt on: the number of GETs stays within 3, each recorded pause matches its attempt's verdict, no accepted attempt comes before the last one made, and the result is True iff some remaining attempt is accepted |
| ImageGenerator.PollinationsRun | image_generator.py:122-135 | between 1 and 3 GETs; True iff one of the first three attempts has status 200, a body over 5000 bytes and a successful write; the loop stops at the first such attempt; on False all 3 attempts were made |
| ImageGenerator.PollinationsLoop | image_generator.py:122-135 | the `for attempt in range(3)` loop with early return yields exactly `PollinationsRun` (result and sleep sequence) |
| ImageGenerator.Calls | image_generator.py:150-163 | the attempted engines appear exactly when attempted, in strictly increasing priority order, ending with the last one tried |
| ImageGenerator.GenerateImage | image_generator.py:53-163 | the tag is the first configured provider that succeeds, else "Placeholder" (both directions). HuggingFace succeeds on status 200, a content type starting with "image" (a missing header reads as "") and a completed write. Cloudflare succeeds on status 200, an image list in the JSON and a completed write. Anything else, a raise included, is a failure. Pollinations runs iff its key is non-empty and neither earlier provider won, and its run is the three-attempt loop. The placeholder is written iff the tag is "Placeholder", whatever the write returns |
| ImageGenerator.GenerateImageCalls | image_generator.py:141-163 | HuggingFace is tried iff its token is non-empty. Cloudflare is tried iff account id and token are non-empty and HuggingFace did not win. Pollinations is tried iff it ran. The placeholder is written iff it is the tag. Calls are in priority order and the last call is the tag |
| ImageGenerator.WorkerCap | image_generator.py:185-188 | 4 iff the HuggingFace or Cloudflare API token is non-empty (account id irrelevant); 2 iff not that and a Pollinations key is non-empty; so always 1, 2 or 4 |
| ImageGenerator.ProcessScene | image_generator.py:190-206 | the job returns its own index and `join(folder, "scene_<index>.jpg")`; uses seed `style_seed + index` and a prompt that starts with the scene prompt and ends with the negative preset; its engine is `generate_image`'s tag |
| ImageGenerator.PoolResults | image_generator.py:208-215 | every future's result carries the index it was submitted with and that scene's path, in completion order |
| ImageGenerator.FillAt | image_generator.py:214-216 | after the fan-in, slot i holds the path of the completed job for index i, or its initial value if no job reported i |
| ImageGenerator.FanInOrderIndependent | image_generator.py:178-216 | for any order in which `as_completed` yields the n jobs, the pre-sized list filled by index equals `[join(folder, "scene_i.jpg") for i in range(n)]`, so no slot stays None |
| ImageGenerator.StoreResult | image_generator.py:215-216 | `image_paths[idx] = path` writes that one slot and leaves the rest |
| ImageGenerator.FanIn | image_generator.py:178-216 | the array loop over completed jobs produces exactly the specified fill of `[None] * n` |
| ImageGenerator.GenerateImages | image_generator.py:169-218 | the worker cap is `WorkerCap`; the jobs are the per-scene jobs; the returned array is index-aligned: slot i is scene i's path whatever the completion order |
| ImageGenerator.ScenePathsDistinct | image_generator.py:191 | different scene indices write different image files |
| Scraper.FirstExternalLink | scraper.py:27-31 | returns the position of the first href, in document order, that starts with "http" and does not contain "google.com"; None iff there is no such href |
| Scraper.ResolveGoogleUrl | scraper.py:5-38 | a URL containing neither "news.google.com" nor "google.com/url" is returned unchanged. Otherwise the first external link of the redirect page is returned, else the URL the request ended at. The original URL is returned when the request raised |
| Scraper.ExternalLinkIsResolved | scraper.py:9-31 | a link chosen from a redirect page is not itself a redirect link: resolving it again returns it unchanged |
| Scraper.StripIdempotent | scraper.py:84 | stripping twice is stripping once |
| Scraper.StripIsPiece | scraper.py:84 | `strip()` returns one contiguous piece of the text with only whitespace removed around it |
| Scraper.NoWordsIffBlank | scraper.py:86 | `text.split()` is empty iff the text is all whitespace |
| Scraper.StripKeepsWordCount | scraper.py:84-86 | counting words after stripping gives the same count as before, so the filter decision does not depend on surrounding whitespace |
| Scraper.LowerKeepsContains | scraper.py:86 | lowering keeps occurrences: if `w` occurs in the text, its lowered form occurs in the lowered text |
| Scraper.MarkerAnyCase | scraper.py:86 | a paragraph containing "copyright" in any letter case ("Copyright", "COPYRIGHT", ...) is dropped, whatever its length |
| Scraper.CleanParagraphs | scraper.py:81-88 | at most one kept text per paragraph; every kept text passes the filter and is already stripped |
| Scraper.CleanParagraphsMembers | scraper.py:83-87 | a text is kept iff it has more than 6 words, its lower-cased form lacks "copyright", and it is the stripped text of some paragraph |
| Scraper.CleanParagraphsAppend | scraper.py:82-87 | filtering keeps document order: the kept texts of two consecutive stretches of paragraphs are those of the first followed by those of the second |
| Scraper.CollectParagraphs | scraper.py:81-88 | the paragraph loop, run over the page's paragraphs in order, appends exactly the texts `CleanParagraphs` keeps |
| Scraper.CleanParagraphsSnoc | scraper.py:82-87 | one more paragraph adds its stripped text when the filter keeps it and nothing otherwise |
| Scraper.Join | scraper.py:89 | the joined text starts with the first kept paragraph |
| Scraper.JoinAppend | scraper.py:89 | joining two non-empty lists is joining each with one space between |
| Scraper.JoinLength | scraper.py:89 | the joined length is the total length of the parts plus one separator between each two |
| Scraper.ArticleTitle | scraper.py:71-78 | the title is never empty and has no surrounding whitespace. It is the stripped h1 text when an h1 exists and is non-blank. Otherwise it is the stripped `<title>` text when there is no h1 and the title is non-blank. Any other value is "News Article", so a present but blank h1 does not fall back to `<title>` |
| Scraper.ExtractArticle | scraper.py:89-101 | None iff the joined kept text is shorter than 200 characters; otherwise the title above and a text of length min(len, 3500) that begins the joined text, hence between 200 and 3500 characters |
| Scraper.ScrapeArticle | scraper.py:40-105 | the target is the resolved URL; a raising fetch or a 4xx/5xx status gives None; otherwise the article equals `ExtractArticle` of the page: None below 200 characters, else the title and the first 3500 characters |
| VideoMaker.DownloadFile | video_maker.py:9-18 | a request is sent iff the file is missing or under 1000 bytes; the file changes only when a request got status 200 and `open` did not raise; it then holds the body, or the bytes written before `write` raised |
| VideoMaker.DownloadSettles | video_maker.py:11-16 | after a fully saved download of at least 1000 bytes, a second call sends nothing and changes nothing |
| VideoMaker.TruncatedIsRetried | video_maker.py:11-18 | a file left under 1000 bytes by a `write` that raised is requested again on the next call |
| VideoMaker.IsHindi | video_maker.py:41-42 | true iff some character lies in U+0900..U+097F |
| VideoMaker.IsHindiAppend | video_maker.py:41-42 | a text is Hindi iff one of its two parts is |
| VideoMaker.ChooseFont | video_maker.py:51-62 | size 25 in both branches; the Devanagari font iff the text is Hindi; the built-in font when loading raises |
| VideoMaker.CaptionBox | video_maker.py:68-81 | the box height is 45 per line plus 60; the bottom edge is 50 above the canvas bottom; x spans 40 to 1240 whatever the width; the top is on the canvas iff 45·n + 110 ≤ height |
| VideoMaker.CreateTextImage | video_maker.py:44-98 | one draw per wrapped line, in order; line i at `box_y1 + 30 + 45*i`; each line's 45-pixel band lies inside the padded box; after the loop `current_y = box_y2 - 30` |
| VideoMaker.VisualFor | video_maker.py:116-124 | a path ending in ".mp4" takes the video branch, every other path the still-image branch |
| VideoMaker.ZipLength | video_maker.py:109 | `zip` walks min(len(media), len(audio), len(scenes)) triples |
| VideoMaker.AssembleClips | video_maker.py:109-133 | over the first n zipped scenes: at most n clips; a raise happens at a scene that has a picture but whose narration cannot be loaded (None, missing, or unreadable by the decoder) |
| VideoMaker.UsedScenes | video_maker.py:110 | the scenes with an existing picture, in increasing order, and all of them |
| VideoMaker.AssembledAreUsedScenes | video_maker.py:109-133 | without a raise, the clips are exactly one per scene with an existing picture, in scene order, each built from that scene's picture, caption and narration |
| VideoMaker.RaisedAtFirstBadVoice | video_maker.py:110-112 | the raise comes from the first used scene whose narration cannot be loaded; without a raise every used scene's narration loads |
| VideoMaker.Returned | video_maker.py:135-160 | `create_video` returns a value exactly when the video was written, and that value is the written path |
| VideoMaker.CreateVideo | video_maker.py:100-160 | the loop with its `continue` skips yields the specified assembly. A narration that fails to load raises. No clips gives None. Otherwise the output path is returned when writing succeeds (music mixed iff its file exists and mixing raised nothing), and None when writing fails; the returned value is the output path iff writing succeeded and there were clips |
| AudioGenerator.SelectVoice | audio_generator.py:30-34 | `VOICE_MAP[language][gender]` when both keys exist, else "en-US-BrianNeural"; always one of the four table voices |
| AudioGenerator.HindiVoiceOnlyForHindi | audio_generator.py:6-34 | a Hindi voice is selected only for the language "Hindi" |
| AudioGenerator.VoicePathsDistinct | audio_generator.py:44 | different scenes get different narration files |
| AudioGenerator.GenerateVoiceover | audio_generator.py:21-54 | one entry per scene in scene order. Entry i is `join(folder, "voice_i.mp3")` when synthesis went through and None when it raised, and a failure does not stop later scenes. Every request uses the same selected voice and the scene's narration |
| AudioGenerator.ListedFilesDistinct | audio_generator.py:42-51 | the narration files listed by one run are pairwise distinct |

## Left out

- HTTP calls (HuggingFace, Cloudflare, Pollinations, the redirect page, the article page, asset downloads) are not performed. Each is a reply value or an oracle over URLs, attempt numbers or requests. Headers, timeouts and URL encoding are not modelled.
- Concurrency is not modelled: the Pollinations lock and the thread pool are outside a sequential model. The pool's fan-in is a loop over an arbitrary completion order, and each job's replies are fixed per scene index.
- `time.sleep` is recorded as the pause length in milliseconds, not performed. `random.randint` is replaced by a style-seed parameter required to lie in [10000, 99999].
- Imaging and media work is not modelled: PIL image creation and saving, `textbbox` and the centred x position (floating point), moviepy clip building, looping, resizing, zooming, cross-fades, concatenation and encoding. The wrapped caption lines are an input instead of `textwrap.wrap(text, 30)`.
- Audio durations (`voice.duration + 0.5`) and the background-music loop and volume are floating-point media work, left out. The music step is reduced to whether it is mixed.
- Parsing the HTML and removing script, style, nav, footer, header, aside, form, iframe and svg elements is not modelled. For the redirect page the model takes the hrefs of all its `<a href>` tags, with nothing removed. For the article page it takes the first h1, the title and the paragraph texts after that clean-up.
- Scraper.Lower: folds ASCII letters only, while Python's `lower()` folds all of Unicode. The paragraph filter's decision is unaffected: the only non-ASCII characters lowered into ASCII letters are U+0130 (to "i" plus a combining dot) and U+212A (to "k"), and neither can complete "copyright".
- VideoMaker.CreateVideo: `output_file` is taken as already absolute (`os.path.abspath` depends on the working directory), and the output folder is not created. Loading footage or images is taken to succeed for an existing file; only the narration load can raise (for `None`, a missing file, or a file the decoder cannot read).
- VideoMaker.CreateTextImage: the canvas width only feeds the centred x position, so it is not a parameter.
- `ensure_assets_exist` (video_maker.py:20-39) is not modelled. It creates folders and calls `download_file`, whose rule is modelled.
- The folder creation in `generate_images` and `generate_voiceover` (`os.makedirs`) and the asyncio event loop are not modelled.
- The Streamlit front end (app.py), topic picking (topic_picker.py), the animation wrapper (animator.py) and the script writer (script_generator.py) are outside the modelled core. They are outside calls or user interface with no decision logic of their own worth stating.
- Logging (`print`) is not modelled.
